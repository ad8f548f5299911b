/** Storage agrees with memory in runs without a crash inside afterBlockAccepted
    (src/net/node.cpp:214-244, src/storage/storage.cpp:98-271). */
module StoredIndexes {
  import opened Common
  import opened Text
  import opened Records
  import opened Ledger
  import opened Chains
  import opened Stores
  import opened Pools
  import opened Nodes
  import opened Commitment
  import opened Network

  /** Every hash entry points at the block of the chain with that hash, and every block after genesis
      has an entry. */
  ghost predicate HashesAgree(n: NodeState)
  {
    && (forall i :: 1 <= i < |n.chain| ==> HashKeyOf(n.chain[i].hash) in n.db)
    && (forall h: Hash :: HashKeyOf(h) in n.db ==> PointsAt(n, h))
  }

  ghost predicate PointsAt(n: NodeState, h: Hash)
    requires HashKeyOf(h) in n.db
  {
    var v := n.db[HashKeyOf(h)];
    v.NumberValue? && 1 <= v.n < |n.chain| && n.chain[v.n].hash == h
  }

  /** A stored account is the live one; an account that is not stored still has its genesis value. */
  ghost predicate AccountAgrees(genesis: Accounts, s: Accounts, db: Db, a: Address)
  {
    match StoredAccount(db, a)
    case Some(account) => a in s && s[a] == account
    case None => (a in s <==> a in genesis) && (a in s ==> s[a] == genesis[a])
  }

  ghost predicate AccountsAgree(g: Config, n: NodeState)
  {
    forall a: Address :: AccountAgrees(GenesisAccounts(g.allocations), n.accounts, n.db, a)
  }

  ghost predicate IndexesAgree(g: Config, n: NodeState)
  {
    HashesAgree(n) && AccountsAgree(g, n)
  }

  ghost predicate Touched(c: Suite, txs: seq<Transaction>, a: Address)
  {
    exists t :: t in txs && (DeriveAddress(c, t.senderPublicKey) == a || t.recipient == a)
  }

  lemma {:induction false} UntouchedApply(c: Suite, s: Accounts, txs: seq<Transaction>, a: Address)
    requires VerifyEach(c, txs) && !Touched(c, txs, a) && ApplyAll(s, txs).Some?
    ensures a in ApplyAll(s, txs).value <==> a in s
    ensures a in s ==> ApplyAll(s, txs).value[a] == s[a]
  {
    if txs != [] {
      var n := |txs| - 1;
      assert txs == txs[..n] + [txs[n]];
      assert txs[n] in txs;
      UntouchedApply(c, s, txs[..n], a);
    }
  }

  lemma {:induction false} KeysGrow(s: Accounts, txs: seq<Transaction>)
    requires ApplyAll(s, txs).Some?
    ensures s.Keys <= ApplyAll(s, txs).value.Keys
  {
    if txs != [] {
      KeysGrow(s, txs[..|txs| - 1]);
    }
  }

  /** Each write copies one live account. */
  ghost predicate Copying(s: Accounts, writes: seq<Write>)
  {
    forall i :: 0 <= i < |writes| ==> CopiesOne(s, writes[i])
  }

  ghost predicate CopiesOne(s: Accounts, w: Write)
  {
    exists x: Address :: x in s && w == map[AccountKey(x) := AccountValue(s[x])]
  }

  /** Some write is for this account. */
  ghost predicate Names(writes: seq<Write>, a: Address)
  {
    exists i :: 0 <= i < |writes| && AccountKey(a) in writes[i]
  }

  /** What copying writes leave of one account. */
  lemma {:induction false} CopyingStores(db: Db, s: Accounts, writes: seq<Write>, a: Address)
    requires Copying(s, writes)
    ensures Names(writes, a) ==> a in s
    ensures StoredAccount(Written(db, writes), a) == if Names(writes, a) then Some(s[a]) else StoredAccount(db, a)
  {
    hide AccountKey;
    if writes != [] {
      var n := |writes| - 1;
      CopyingStores(db, s, writes[..n], a);
      assert CopiesOne(s, writes[n]);
      var x: Address :| x in s && writes[n] == map[AccountKey(x) := AccountValue(s[x])];
      KeysApart(0, 0, ZeroHash(), ZeroHash(), x, a);
      NamesStep(writes, a);
      AccountReadsBack(Written(db, writes[..n]), x, s[x], 0, ZeroHash(), a);
      assert Written(db, writes[..n]) + writes[n] == Written(db, writes[..n])[AccountKey(x) := AccountValue(s[x])];
    }
  }

  lemma NamesStep(writes: seq<Write>, a: Address)
    requires writes != []
    ensures Names(writes, a) <==> Names(writes[..|writes| - 1], a) || AccountKey(a) in writes[|writes| - 1]
  {
    hide AccountKey;
    var n := |writes| - 1;
    if Names(writes[..n], a) {
      var i :| 0 <= i < n && AccountKey(a) in writes[..n][i];
      assert AccountKey(a) in writes[i];
    }
    if Names(writes, a) {
      var i :| 0 <= i < |writes| && AccountKey(a) in writes[i];
      assert i < n ==> AccountKey(a) in writes[..n][i];
    }
  }

  /** The account writes of a block copy exactly the accounts that it touches. */
  lemma {:induction false} AccountWritesName(c: Suite, s: Accounts, txs: seq<Transaction>, a: Address)
    ensures Copying(s, AccountWrites(c, s, txs))
    ensures Names(AccountWrites(c, s, txs), a) <==> Touched(c, txs, a) && a in s
  {
    hide AccountKey, DeriveAddress, Touched;
    if txs == [] {
      NothingTouched(c, a);
    } else {
      var n := |txs| - 1;
      var done, sender := AccountWrites(c, s, txs[..n]), DeriveAddress(c, txs[n].senderPublicKey);
      AccountWritesName(c, s, txs[..n], a);
      OneNamed(s, done, sender, a);
      OneNamed(s, done + AccountWrite(s, sender), txs[n].recipient, a);
      TouchedStep(c, txs, a);
    }
  }

  lemma NothingTouched(c: Suite, a: Address)
    ensures !Touched(c, [], a)
  {
  }

  lemma OneNamed(s: Accounts, done: seq<Write>, x: Address, a: Address)
    requires Copying(s, done)
    ensures Copying(s, done + AccountWrite(s, x))
    ensures Names(done + AccountWrite(s, x), a) <==> Names(done, a) || (x == a && a in s)
  {
    hide AccountKey;
    if x in s {
      var all := done + AccountWrite(s, x);
      assert CopiesOne(s, AccountWrite(s, x)[0]);
      KeysApart(0, 0, ZeroHash(), ZeroHash(), x, a);
      assert all[..|all| - 1] == done && all[|done|] == AccountWrite(s, x)[0];
      NamesStep(all, a);
    } else {
      assert done + AccountWrite(s, x) == done;
    }
  }

  lemma TouchedStep(c: Suite, txs: seq<Transaction>, a: Address)
    requires txs != []
    ensures var n := |txs| - 1;
            Touched(c, txs, a) <==>
              Touched(c, txs[..n], a) || DeriveAddress(c, txs[n].senderPublicKey) == a || txs[n].recipient == a
  {
    var n := |txs| - 1;
    assert txs == txs[..n] + [txs[n]];
    if Touched(c, txs[..n], a) {
      var t :| t in txs[..n] && (DeriveAddress(c, t.senderPublicKey) == a || t.recipient == a);
      assert t in txs;
    }
    assert txs[n] in txs;
  }

  // ---------------------------------------------------------------- a crash while one block is accepted

  ghost function AccountPart(g: Config, n: NodeState, b: Block): seq<Write>
  {
    AccountWrites(g.crypto, Accept(g, n, b).accounts, b.transactions)
  }

  /** The database after j of the writes for a block. */
  ghost function DbAfter(g: Config, n: NodeState, b: Block, j: nat): Db
    requires j <= |AcceptWrites(g, n, b)|
  {
    Written(n.db, AcceptWrites(g, n, b)[..j])
  }

  lemma DbAfterParts(g: Config, n: NodeState, b: Block, j: nat)
    requires g.persistent && j <= |AcceptWrites(g, n, b)|
    ensures j == 0 ==> DbAfter(g, n, b, j) == n.db
    ensures j == 1 ==> DbAfter(g, n, b, j) == n.db + BlockWrite(b)
    ensures 2 <= j ==> j - 2 <= |AccountPart(g, n, b)|
    ensures 2 <= j ==>
              DbAfter(g, n, b, j)
              == Written(n.db + BlockWrite(b) + HeightWrite(|n.chain| + 1), AccountPart(g, n, b)[..j - 2])
  {
    hide BlockWrite, HeightWrite, Revalidated, ApplyOrKeep, AccountWrites;
    var writes := AcceptWrites(g, n, b);
    var first := [BlockWrite(b), HeightWrite(|n.chain| + 1)];
    assert writes == first + AccountPart(g, n, b);
    if j == 0 {
      assert writes[..j] == [];
    } else if j == 1 {
      assert writes[..1] == [BlockWrite(b)];
      WrittenOnce(n.db, BlockWrite(b));
    } else {
      assert writes[..j] == first + AccountPart(g, n, b)[..j - 2];
      WrittenConcat(n.db, first, AccountPart(g, n, b)[..j - 2]);
      WrittenTwice(n.db, BlockWrite(b), HeightWrite(|n.chain| + 1));
    }
  }

  /** What hash entries there are after j >= 1 writes. */
  lemma HashKeyAfter(g: Config, n: NodeState, b: Block, j: nat, h: Hash)
    requires g.persistent && 1 <= j <= |AcceptWrites(g, n, b)|
    ensures HashKeyOf(h) in DbAfter(g, n, b, j) <==> HashKeyOf(h) in n.db || h == b.hash
    ensures h == b.hash ==> DbAfter(g, n, b, j)[HashKeyOf(h)] == NumberValue(b.index)
    ensures h != b.hash && HashKeyOf(h) in n.db ==> DbAfter(g, n, b, j)[HashKeyOf(h)] == n.db[HashKeyOf(h)]
  {
    hide Revalidated, ApplyOrKeep, Written, DbAfter, AccountsOnly;
    DbAfterParts(g, n, b, j);
    KeysApart(b.index, b.index, h, b.hash, ZeroAddress(), ZeroAddress());
    if 2 <= j {
      AccountWritesOnly(g.crypto, Accept(g, n, b).accounts, b.transactions);
      AccountsOnlyPrefix(AccountPart(g, n, b), j - 2);
      assert HashKeyOf(h)[0] == 'h';
      AccountsOnlyKeeps(n.db + BlockWrite(b) + HeightWrite(|n.chain| + 1), AccountPart(g, n, b)[..j - 2], HashKeyOf(h));
    }
  }

  lemma HashesAfter(g: Config, n: NodeState, b: Block, j: nat, after: NodeState)
    requires g.persistent && HashesAgree(n) && b.index == |n.chain| && 2 <= j <= |AcceptWrites(g, n, b)|
    requires n.chain != [] && after.chain == n.chain + [b] && after.db == DbAfter(g, n, b, j)
    ensures HashesAgree(after)
  {
    hide AcceptWrites, DbAfter, HashKeyOf;
    forall i | 1 <= i < |after.chain| ensures HashKeyOf(after.chain[i].hash) in after.db {
      HashKeyAfter(g, n, b, j, after.chain[i].hash);
      if i < |n.chain| {
        assert after.chain[i] == n.chain[i] && HashKeyOf(n.chain[i].hash) in n.db;
      } else {
        assert after.chain[i] == b;
      }
    }
    forall h: Hash | HashKeyOf(h) in after.db ensures PointsAt(after, h) {
      HashKeyAfter(g, n, b, j, h);
      if h != b.hash {
        assert PointsAt(n, h);
        assert after.chain[n.db[HashKeyOf(h)].n] == n.chain[n.db[HashKeyOf(h)].n];
      } else {
        assert after.chain[|n.chain|] == b;
      }
    }
  }

  /** When hash entries and memory agree after a crash and restart: unless the process died between the
      block's own write and the height. */
  lemma HashesAgreeIff(g: Config, n: NodeState, b: Block, j: nat)
    requires g.persistent && NodeOk(g, n) && HashesAgree(n) && Takes(g, n, b) && j <= |AcceptWrites(g, n, b)|
    ensures HashesAgree(Boot(g, DbAfter(g, n, b, j))) <==> j != 1
  {
    hide NodeOk, HashesAgree, AcceptWrites, DbAfter, Acceptable, Recovered;
    NodeHasGenesis(g, n);
    var after := Boot(g, DbAfter(g, n, b, j));
    CrashRecovery(g, n, b, j);
    DbAfterIs(g, n, b, j);
    if j == 0 {
      DbAfterParts(g, n, b, j);
      HashesSame(n, after);
    } else if j == 1 {
      HashKeyAfter(g, n, b, j, b.hash);
      Dangles(after, b);
    } else {
      HashesAfter(g, n, b, j, after);
    }
  }

  lemma DbAfterIs(g: Config, n: NodeState, b: Block, j: nat)
    requires j <= |AcceptWrites(g, n, b)|
    ensures DbAfter(g, n, b, j) == Written(n.db, AcceptWrites(g, n, b)[..j])
  {
  }

  lemma HashesSame(n: NodeState, m: NodeState)
    requires HashesAgree(n) && m.chain == n.chain && m.db == n.db
    ensures HashesAgree(m)
  {
    forall h: Hash | HashKeyOf(h) in m.db ensures PointsAt(m, h) {
      assert PointsAt(n, h);
    }
  }

  lemma Dangles(n: NodeState, b: Block)
    requires b.index == |n.chain| && HashKeyOf(b.hash) in n.db && n.db[HashKeyOf(b.hash)] == NumberValue(b.index)
    ensures !HashesAgree(n)
  {
    assert !PointsAt(n, b.hash);
  }

  /** Both states hold the same of this account. */
  ghost predicate SameAt(s: Accounts, t: Accounts, a: Address)
  {
    (a in s <==> a in t) && (a in s ==> s[a] == t[a])
  }

  lemma StoredAccountAfter(g: Config, n: NodeState, b: Block, j: nat, a: Address)
    requires g.persistent && j <= |AcceptWrites(g, n, b)|
    ensures j < 2 ==> StoredAccount(DbAfter(g, n, b, j), a) == StoredAccount(n.db, a)
    ensures 2 <= j ==>
              && j - 2 <= |AccountPart(g, n, b)|
              && (Names(AccountPart(g, n, b)[..j - 2], a) ==> a in Accept(g, n, b).accounts)
              && StoredAccount(DbAfter(g, n, b, j), a)
                 == if Names(AccountPart(g, n, b)[..j - 2], a) then Some(Accept(g, n, b).accounts[a])
                    else StoredAccount(n.db, a)
  {
    hide Accept, AcceptWrites, DbAfter, Names, Copying, StoredAccount, BlockWrite, HeightWrite;
    DbAfterParts(g, n, b, j);
    BlockReadsBack(n.db, b, 0, b.hash, a);
    HeightReadsBack(n.db + BlockWrite(b), |n.chain| + 1, 0, b.hash, a);
    if 2 <= j {
      AccountWritesName(g.crypto, Accept(g, n, b).accounts, b.transactions, a);
      CopyingPrefix(Accept(g, n, b).accounts, AccountPart(g, n, b), j - 2);
      CopyingStores(n.db + BlockWrite(b) + HeightWrite(|n.chain| + 1), Accept(g, n, b).accounts,
                    AccountPart(g, n, b)[..j - 2], a);
    }
  }

  lemma CopyingPrefix(s: Accounts, writes: seq<Write>, k: nat)
    requires Copying(s, writes) && k <= |writes|
    ensures Copying(s, writes[..k])
  {
    hide CopiesOne;
  }

  /** When a stored account agrees with memory after a crash with the height already written: exactly if the
      account's write was made, or the block leaves the account as it was. */
  lemma AccountAgreesIff(g: Config, n: NodeState, b: Block, j: nat, a: Address)
    requires g.persistent && j <= |AcceptWrites(g, n, b)|
    requires AccountAgrees(GenesisAccounts(g.allocations), n.accounts, n.db, a)
    ensures j < 2 ==> AccountAgrees(GenesisAccounts(g.allocations), n.accounts, DbAfter(g, n, b, j), a)
    ensures 2 <= j ==>
              && j - 2 <= |AccountPart(g, n, b)|
              && (AccountAgrees(GenesisAccounts(g.allocations), Accept(g, n, b).accounts, DbAfter(g, n, b, j), a)
                  <==> Names(AccountPart(g, n, b)[..j - 2], a) || SameAt(n.accounts, Accept(g, n, b).accounts, a))
  {
    hide Accept, AcceptWrites, AccountPart, DbAfter, Names, StoredAccount;
    StoredAccountAfter(g, n, b, j, a);
  }

  /** A crash after j of a block's writes that leaves all indexes in agreement: before any write, or with the
      height written and every account that the block changes written too. */
  ghost predicate CleanCut(g: Config, n: NodeState, b: Block, j: nat)
    requires j <= |AcceptWrites(g, n, b)|
  {
    && j != 1
    && (2 <= j ==>
          forall a: Address :: AccountWritten(g, n, b, j, a) || SameAt(n.accounts, Accept(g, n, b).accounts, a))
  }

  ghost predicate AccountWritten(g: Config, n: NodeState, b: Block, j: nat, a: Address)
  {
    2 <= j && j - 2 <= |AccountPart(g, n, b)| && Names(AccountPart(g, n, b)[..j - 2], a)
  }

  /** Exactly when stored indexes and memory agree after a crash while a block is accepted, and a restart. */
  lemma CrashInAcceptIff(g: Config, n: NodeState, b: Block, j: nat)
    requires g.persistent && NodeOk(g, n) && IndexesAgree(g, n) && Takes(g, n, b) && j <= |AcceptWrites(g, n, b)|
    ensures IndexesAgree(g, Boot(g, DbAfter(g, n, b, j))) <==> CleanCut(g, n, b, j)
  {
    hide NodeOk, HashesAgree, AcceptWrites, DbAfter, Acceptable, Recovered, AccountPart, AccountWritten, AccountAgrees,
      SameAt, Accept, StateOf, Takes;
    NodeHasGenesis(g, n);
    var after := Boot(g, DbAfter(g, n, b, j));
    HashesAgreeIff(g, n, b, j);
    CrashRecovery(g, n, b, j);
    DbAfterIs(g, n, b, j);
    AfterAccounts(g, n, b);
    forall a: Address
      ensures AccountAgrees(GenesisAccounts(g.allocations), after.accounts, after.db, a)
              <==> j < 2 || AccountWritten(g, n, b, j, a) || SameAt(n.accounts, Accept(g, n, b).accounts, a)
    {
      AccountAgreesIff(g, n, b, j, a);
      WrittenIs(g, n, b, j, a);
    }
  }

  lemma WrittenIs(g: Config, n: NodeState, b: Block, j: nat, a: Address)
    ensures AccountWritten(g, n, b, j, a)
            <==> 2 <= j && j - 2 <= |AccountPart(g, n, b)| && Names(AccountPart(g, n, b)[..j - 2], a)
  {
  }

  lemma AfterAccounts(g: Config, n: NodeState, b: Block)
    requires NodeOk(g, n) && Takes(g, n, b)
    ensures StateOf(g, n.chain) == n.accounts && StateOf(g, Accept(g, n, b).chain) == Accept(g, n, b).accounts
  {
    hide PoolOk, LinkedAt, Revalidated, DbHolds;
    ReplayExtends(GenesisAccounts(g.allocations), n.chain, b);
  }

  // ---------------------------------------------------------------- no crash

  lemma AcceptedAccounts(g: Config, n: NodeState, b: Block, a: Address)
    requires g.persistent && VerifyEach(g.crypto, b.transactions)
    requires AccountAgrees(GenesisAccounts(g.allocations), n.accounts, n.db, a)
    ensures AccountAgrees(GenesisAccounts(g.allocations), Accept(g, n, b).accounts, Accept(g, n, b).db, a)
  {
    hide VerifyEach, Revalidated, ApplyAll, Written, AccountWrites, BlockWrites, Touched, StoredAccount, Names;
    var s, txs := Accept(g, n, b).accounts, b.transactions;
    var j := |AcceptWrites(g, n, b)|;
    AcceptedDb(g, n, b);
    AccountAgreesIff(g, n, b, j, a);
    AccountWritesName(g.crypto, s, txs, a);
    assert AccountPart(g, n, b)[..j - 2] == AccountPart(g, n, b);
    if ApplyAll(n.accounts, txs).Some? {
      KeysGrow(n.accounts, txs);
      if !Touched(g.crypto, txs, a) {
        UntouchedApply(g.crypto, n.accounts, txs, a);
      }
    }
  }

  lemma AcceptedDb(g: Config, n: NodeState, b: Block)
    requires g.persistent
    ensures |AcceptWrites(g, n, b)| == 2 + |AccountPart(g, n, b)|
    ensures Accept(g, n, b).db == DbAfter(g, n, b, |AcceptWrites(g, n, b)|)
  {
    hide Written, Revalidated;
    assert AcceptWrites(g, n, b)[..|AcceptWrites(g, n, b)|] == AcceptWrites(g, n, b);
  }

  /** Accepting a block keeps all stored indexes in agreement with memory. */
  lemma AcceptKeepsIndexes(g: Config, n: NodeState, b: Block)
    requires g.persistent && n.chain != [] && g.authorities != [] && IndexesAgree(g, n) && Takes(g, n, b)
    ensures IndexesAgree(g, Accept(g, n, b))
  {
    hide Revalidated, AcceptWrites, VerifyTransaction, HashesAgree, AccountAgrees, Written, DbAfter;
    forall a: Address
      ensures AccountAgrees(GenesisAccounts(g.allocations), Accept(g, n, b).accounts, Accept(g, n, b).db, a)
    {
      AcceptedAccounts(g, n, b, a);
    }
    AcceptedDb(g, n, b);
    HashesAfter(g, n, b, |AcceptWrites(g, n, b)|, Accept(g, n, b));
  }

  lemma {:induction false} OnBlocksKeepsIndexes(g: Config, n: NodeState, blocks: seq<Block>)
    requires g.persistent && Runs(g, n) && IndexesAgree(g, n)
    ensures IndexesAgree(g, OnBlocks(g, n, blocks))
    decreases |blocks|
  {
    hide IndexesAgree, Extends;
    if blocks != [] {
      if blocks[0].index < |n.chain| {
        OnBlocksKeepsIndexes(g, n, blocks[1..]);
      } else if blocks[0].index == |n.chain| && Takes(g, n, blocks[0]) {
        AcceptKeepsIndexes(g, n, blocks[0]);
        OnBlocksKeepsIndexes(g, Accept(g, n, blocks[0]), blocks[1..]);
      }
    }
  }

  /** Whatever message a node handles to the end, its stored indexes keep agreeing with memory. */
  lemma {:induction false} HandleKeepsIndexes(g: Config, n: NodeState, m: Message)
    requires g.persistent && Runs(g, n) && IndexesAgree(g, n)
    ensures IndexesAgree(g, Handle(g, n, m).node)
  {
    hide Extends, Accept;
    match m
    case NewBlock(b) =>
      if b.index == |n.chain| && Takes(g, n, b) {
        AcceptKeepsIndexes(g, n, b);
      }
    case Blocks(blocks) => OnBlocksKeepsIndexes(g, n, blocks);
    case _ =>
  }

  lemma {:induction false} ProduceKeepsIndexes(g: Config, n: NodeState, now: U64)
    requires g.persistent && Runs(g, n) && IndexesAgree(g, n)
    ensures IndexesAgree(g, Produce(g, n, now).node)
  {
    hide Extends, Accept, Draft;
    if OwnTurn(g, n) && Takes(g, n, Draft(g, n, now)) {
      AcceptKeepsIndexes(g, n, Draft(g, n, now));
    }
  }

  /** A restart on complete storage stays in agreement ... */
  lemma RestartKeepsIndexes(g: Config, n: NodeState)
    requires g.persistent && NodeOk(g, n) && IndexesAgree(g, n)
    ensures g.authorities != [] && IndexesAgree(g, Boot(g, n.db))
  {
    hide PoolOk, VerifyBlock, LinkedAt;
    BootRestores(g, n.db, n.chain);
  }

  /** ... and a fresh node starts in agreement. */
  lemma FreshIndexesAgree(g: Config)
    requires ConfigOk(g)
    ensures IndexesAgree(g, Boot(g, map[]))
  {
    hide PoolOk, VerifyBlock, LinkedAt;
    GenesisIsValid(g.crypto, Some(g.authorities), g.genesisKeys);
    BootRestores(g, map[], [Genesis(g)]);
  }

  lemma SubmitKeepsIndexes(g: Config, n: NodeState, tx: Transaction)
    requires IndexesAgree(g, n)
    ensures IndexesAgree(g, Submit(g, n, tx).node)
  {
    hide Pools.Accepts, Add, AccountAgrees;
    var after := Submit(g, n, tx).node;
    forall h: Hash | HashKeyOf(h) in after.db ensures PointsAt(after, h) {
      assert PointsAt(n, h);
    }
  }

  // ---------------------------------------------------------------- a crash inside any handler

  /** A death after j writes of a BLOCKS message is clean if it is for the block being accepted then. */
  ghost predicate CleanBlocks(g: Config, n: NodeState, blocks: seq<Block>, j: nat)
    requires Runs(g, n)
    decreases |blocks|
  {
    if blocks == [] then true
    else if blocks[0].index < |n.chain| then CleanBlocks(g, n, blocks[1..], j)
    else if blocks[0].index != |n.chain| || !Takes(g, n, blocks[0]) then true
    else if j <= |AcceptWrites(g, n, blocks[0])| then CleanCut(g, n, blocks[0], j)
    else CleanBlocks(g, Accept(g, n, blocks[0]), blocks[1..], j - |AcceptWrites(g, n, blocks[0])|)
  }

  ghost predicate CleanHandle(g: Config, n: NodeState, m: Message, j: nat)
    requires Runs(g, n) && j <= |Handle(g, n, m).writes|
  {
    match m
    case NewBlock(b) => b.index == |n.chain| && Takes(g, n, b) ==> CleanCut(g, n, b, j)
    case Blocks(blocks) => CleanBlocks(g, n, blocks, j)
    case _ => true
  }

  ghost predicate CleanMaking(g: Config, n: NodeState, now: U64, j: nat)
    requires Runs(g, n) && j <= |Produce(g, n, now).writes|
  {
    OwnTurn(g, n) && Takes(g, n, Draft(g, n, now)) ==> CleanCut(g, n, Draft(g, n, now), j)
  }

  lemma NoWriteNoHarm(g: Config, n: NodeState)
    requires g.persistent && NodeOk(g, n) && IndexesAgree(g, n)
    ensures g.authorities != [] && IndexesAgree(g, Boot(g, Written(n.db, [])))
  {
    hide NodeOk, IndexesAgree, Boot;
    RestartKeepsIndexes(g, n);
  }

  lemma CutInFirst(g: Config, n: NodeState, b: Block, rest: seq<Write>, j: nat)
    requires g.persistent && NodeOk(g, n) && IndexesAgree(g, n) && Takes(g, n, b) && j <= |AcceptWrites(g, n, b)|
    ensures IndexesAgree(g, Boot(g, Written(n.db, (AcceptWrites(g, n, b) + rest)[..j]))) <==> CleanCut(g, n, b, j)
  {
    hide NodeOk, IndexesAgree, Boot, Written, AcceptWrites, CleanCut, Takes;
    TakeOfConcat(AcceptWrites(g, n, b), rest, j);
    DbAfterIs(g, n, b, j);
    CrashInAcceptIff(g, n, b, j);
  }

  lemma CutInRest(g: Config, n: NodeState, b: Block, rest: seq<Write>, j: nat)
    requires |AcceptWrites(g, n, b)| <= j <= |AcceptWrites(g, n, b)| + |rest|
    ensures Written(n.db, (AcceptWrites(g, n, b) + rest)[..j])
            == Written(Accept(g, n, b).db, rest[..j - |AcceptWrites(g, n, b)|])
  {
    hide AcceptWrites, Written;
    var first := AcceptWrites(g, n, b);
    assert (first + rest)[..j] == first + rest[..j - |first|];
    WrittenConcat(n.db, first, rest[..j - |first|]);
  }

  lemma {:induction false} CrashInBlocksIff(g: Config, n: NodeState, blocks: seq<Block>, j: nat)
    requires g.persistent && NodeOk(g, n) && IndexesAgree(g, n) && j <= |OnBlocksWrites(g, n, blocks)|
    ensures IndexesAgree(g, Boot(g, Written(n.db, OnBlocksWrites(g, n, blocks)[..j])))
            <==> CleanBlocks(g, n, blocks, j)
    decreases |blocks|
  {
    hide NodeOk, IndexesAgree, Boot, Written, AcceptWrites, CleanCut, Takes, Accept;
    NodeHasGenesis(g, n);
    if blocks != [] && blocks[0].index < |n.chain| {
      CrashInBlocksIff(g, n, blocks[1..], j);
    } else if blocks != [] && blocks[0].index == |n.chain| && Takes(g, n, blocks[0]) {
      var b, next := blocks[0], Accept(g, n, blocks[0]);
      AcceptKeepsOk(g, n, b);
      NodeHasGenesis(g, next);
      var rest := OnBlocksWrites(g, next, blocks[1..]);
      if j <= |AcceptWrites(g, n, b)| {
        CutInFirst(g, n, b, rest, j);
      } else {
        AcceptKeepsIndexes(g, n, b);
        CutInRest(g, n, b, rest, j);
        CrashInBlocksIff(g, next, blocks[1..], j - |AcceptWrites(g, n, b)|);
      }
    } else {
      assert OnBlocksWrites(g, n, blocks)[..j] == [];
      NoWriteNoHarm(g, n);
    }
  }

  /** Exactly when stored indexes and memory agree after a death inside the handling of any message. */
  lemma CrashInHandleIff(g: Config, n: NodeState, m: Message, j: nat)
    requires g.persistent && NodeOk(g, n) && IndexesAgree(g, n) && j <= |Handle(g, n, m).writes|
    ensures IndexesAgree(g, Boot(g, Written(n.db, Handle(g, n, m).writes[..j]))) <==> CleanHandle(g, n, m, j)
  {
    hide NodeOk, IndexesAgree, Boot, Written, AcceptWrites, CleanCut, Takes, Accept, CleanBlocks;
    NodeHasGenesis(g, n);
    if m.NewBlock? && m.block.index == |n.chain| && Takes(g, n, m.block) {
      assert AcceptWrites(g, n, m.block) + [] == AcceptWrites(g, n, m.block);
      CutInFirst(g, n, m.block, [], j);
    } else if m.Blocks? {
      CrashInBlocksIff(g, n, m.blocks, j);
    } else {
      assert Handle(g, n, m).writes[..j] == [];
      NoWriteNoHarm(g, n);
    }
  }

  lemma CrashInMakingIff(g: Config, n: NodeState, now: U64, j: nat)
    requires g.persistent && NodeOk(g, n) && IndexesAgree(g, n) && j <= |Produce(g, n, now).writes|
    ensures IndexesAgree(g, Boot(g, Written(n.db, Produce(g, n, now).writes[..j]))) <==> CleanMaking(g, n, now, j)
  {
    hide NodeOk, IndexesAgree, Boot, Written, AcceptWrites, CleanCut, Takes, Accept, Draft;
    NodeHasGenesis(g, n);
    var b := Draft(g, n, now);
    if OwnTurn(g, n) && Takes(g, n, b) {
      assert AcceptWrites(g, n, b) + [] == AcceptWrites(g, n, b);
      CutInFirst(g, n, b, [], j);
    } else {
      assert Produce(g, n, now).writes[..j] == [];
      NoWriteNoHarm(g, n);
    }
  }

  // ---------------------------------------------------------------- runs

  /** The event does not tear the stored indexes of its node: it is no death inside a handler, or a clean one. */
  ghost predicate CleanEvent(net: Net, s: System, e: Event)
    requires WellPlaced(net, s) && Possible(net, s, e)
  {
    && (e.DieDelivering? ==> CleanHandle(ConfigOf(net, e.node), s.nodes[e.node], e.m, e.writes))
    && (e.DieMaking? ==> CleanMaking(ConfigOf(net, e.node), s.nodes[e.node], e.now, e.writes))
  }

  lemma EventIndexesIff(net: Net, s: System, e: Event)
    requires WellPlaced(net, s) && Possible(net, s, e) && net.members[e.node].persistent
    requires NodeOk(ConfigOf(net, e.node), s.nodes[e.node])
    requires IndexesAgree(ConfigOf(net, e.node), s.nodes[e.node])
    ensures IndexesAgree(ConfigOf(net, e.node), NodeAfter(net, s, e)) <==> CleanEvent(net, s, e)
  {
    hide IndexesAgree, NodeOk, Handle, Produce, Submit, Boot, Written, CleanHandle, CleanMaking;
    var g, n := ConfigOf(net, e.node), s.nodes[e.node];
    match e
    case Deliver(_, m) => HandleKeepsIndexes(g, n, m);
    case MakeBlock(_, now) => ProduceKeepsIndexes(g, n, now);
    case Client(_, tx) => SubmitKeepsIndexes(g, n, tx);
    case Connect(_) =>
    case Restart(_) => NoWriteNoHarm(g, n);
    case DieDelivering(_, m, j) => CrashInHandleIff(g, n, m, j);
    case DieMaking(_, now, j) => CrashInMakingIff(g, n, now, j);
  }

  /** Event k of the run, if it happens at node i, is clean. */
  ghost predicate CleanAt(net: Net, events: seq<Event>, k: nat, i: nat)
    requires net.authorities != [] && k < |events|
  {
    var s := Network.Run(net, events[..k]);
    WellPlaced(net, s) && Enabled(net, s, events[k]) && events[k].node == i ==> CleanEvent(net, s, events[k])
  }

  ghost predicate AllClean(net: Net, events: seq<Event>, i: nat)
    requires net.authorities != []
  {
    forall k :: 0 <= k < |events| ==> CleanAt(net, events, k, i)
  }

  lemma CleanPrefix(net: Net, events: seq<Event>, k: nat, i: nat)
    requires net.authorities != [] && AllClean(net, events, i) && k <= |events|
    ensures AllClean(net, events[..k], i)
  {
    hide CleanEvent, Network.Run, WellPlaced, Enabled;
    forall m | 0 <= m < k ensures CleanAt(net, events[..k], m, i) {
      assert events[..k][..m] == events[..m];
      assert CleanAt(net, events, m, i);
    }
  }

  /** In every run without an unclean death at a persistent node, however often it restarts or dies cleanly,
      its stored indexes agree with memory. */
  lemma {:induction false} RunKeepsIndexes(net: Net, events: seq<Event>, i: nat)
    requires NetOk(net) && |events| <= MAX_U64 && i < |net.members| && net.members[i].persistent
    requires AllClean(net, events, i)
    ensures |Network.Run(net, events).nodes| == |net.members|
    ensures IndexesAgree(ConfigOf(net, i), Network.Run(net, events).nodes[i])
  {
    hide IndexesAgree, MemberOk, NoFork, Enabled, NodeAfter, SentBy, Boot, AllLow, CleanAt, ConfigOk;
    RunKeepsInv(net, events);
    if events == [] {
      MemberConfigOk(net, i);
      FreshIndexesAgree(ConfigOf(net, i));
    } else {
      var k := |events| - 1;
      assert events == events[..k] + [events[k]];
      CleanPrefix(net, events, k, i);
      RunKeepsIndexes(net, events[..k], i);
      RunIndexesStep(net, events[..k], events[k], i);
      assert CleanAt(net, events, k, i);
    }
  }

  /** ... and exactly such a death ends the agreement. */
  lemma RunIndexesStep(net: Net, events: seq<Event>, e: Event, i: nat)
    requires NetOk(net) && |events| < MAX_U64 && i < |net.members| && net.members[i].persistent
    requires |Network.Run(net, events).nodes| == |net.members|
    requires IndexesAgree(ConfigOf(net, i), Network.Run(net, events).nodes[i])
    ensures |Network.Run(net, events + [e]).nodes| == |net.members|
    ensures IndexesAgree(ConfigOf(net, i), Network.Run(net, events + [e]).nodes[i])
            <==> CleanAt(net, events + [e], |events|, i)
  {
    hide IndexesAgree, NodeOk, AllBacked, AllApply, NoFork, NodeAfter, SentBy, AllLow, CleanEvent, OutcomeOf, ConfigOk;
    assert (events + [e])[..|events|] == events;
    RunKeepsInv(net, events);
    var s := Network.Run(net, events);
    if Enabled(net, s, e) && e.node == i {
      assert MemberOk(net, s.nodes, i);
      EventIndexesIff(net, s, e);
    }
  }

  /** Lookup by hash in storage and the linear scan of memory give the same block, except for genesis,
      which is not stored - or the headers of two blocks of this chain collide. */
  lemma {:induction false} LookupMatchesScan(g: Config, n: NodeState, h: Hash)
    requires PrintsCompactly(g.crypto) && g.persistent && NodeOk(g, n) && HashesAgree(n)
    requires h != n.chain[0].hash
    ensures HeaderClash(g.crypto, n.chain) || StoredByHash(n.db, h) == FirstWithHash(n.chain, h)
  {
    hide PoolOk, VerifyBlock;
    var found := FirstWithHash(n.chain, h);
    FirstWithHashMeans(n.chain, h);
    if found.Some? {
      var i :| 0 <= i < |n.chain| && n.chain[i] == found.value && n.chain[i].hash == h;
      assert PointsAt(n, h);
      var j := n.db[HashKeyOf(h)].n;
      assert StoredBlock(n.db, j) == Some(n.chain[j]);
      if !HeaderClash(g.crypto, n.chain) {
        SameHashSameBlock(g, n.chain, i, j);
      }
    } else {
      assert HashKeyOf(h) in n.db ==> PointsAt(n, h);
    }
  }

  /** Two blocks of the chain have distinct header texts with the same digest. */
  ghost predicate HeaderClash(c: Suite, chain: seq<Block>)
  {
    exists i, j :: 0 <= i < |chain| && 0 <= j < |chain|
                   && Collision(c, HeaderText(c, chain[i]), HeaderText(c, chain[j]))
  }

  lemma SameHashSameBlock(g: Config, chain: seq<Block>, i: nat, j: nat)
    requires PrintsCompactly(g.crypto) && !HeaderClash(g.crypto, chain) && Consistent(g.crypto, chain)
    requires i < |chain| && j < |chain| && chain[i].hash == chain[j].hash
    ensures i == j
  {
    assert LinkedAt(g.crypto, chain, i) && LinkedAt(g.crypto, chain, j);
    HeaderCommitment(g.crypto, chain[i], chain[j]);
  }

  // ---------------------------------------------------------------- what an unclean death leaves behind

  /** After the death between a block's own write and the height, the lost block is still found by its hash,
      though it is not in the chain. */
  lemma LostBlockIsFound(g: Config, n: NodeState, lost: Block)
    requires g.persistent && NodeOk(g, n) && HashesAgree(n) && Takes(g, n, lost)
    requires 1 <= |AcceptWrites(g, n, lost)|
    ensures var after := Boot(g, DbAfter(g, n, lost, 1));
            && StoredByHash(after.db, lost.hash) == Some(lost)
            && after.chain == n.chain && lost.index == |after.chain|
            && !HashesAgree(after)
  {
    hide NodeOk, HashesAgree, AcceptWrites, DbAfter, Acceptable, Recovered, BlockWrite;
    NodeHasGenesis(g, n);
    HashesAgreeIff(g, n, lost, 1);
    DbAfterParts(g, n, lost, 1);
    DbAfterIs(g, n, lost, 1);
    CrashRecovery(g, n, lost, 1);
    BlockReadsBack(n.db, lost, 0, lost.hash, ZeroAddress());
  }

  /** The next accepted block mends this exactly if it has the lost block's hash; otherwise, from then on, the
      lost block's hash finds the other block. */
  lemma StaleHashIff(g: Config, n: NodeState, lost: Block, r: NodeState, other: Block)
    requires g.persistent && NodeOk(g, n) && HashesAgree(n) && Takes(g, n, lost)
    requires 1 <= |AcceptWrites(g, n, lost)| && Runs(g, r) && r == Boot(g, DbAfter(g, n, lost, 1))
    requires Takes(g, r, other)
    ensures HashesAgree(Accept(g, r, other)) <==> other.hash == lost.hash
    ensures StoredByHash(Accept(g, r, other).db, lost.hash) == Some(other)
  {
    hide NodeOk, HashesAgree, AcceptWrites, DbAfter, Acceptable, Recovered, HashKeyOf;
    CrashRecovery(g, n, lost, 1);
    DbAfterIs(g, n, lost, 1);
    assert r.db == DbAfter(g, n, lost, 1) && r.chain == n.chain;
    MendedIff(g, n, lost, r, other);
    AcceptKeepsOk(g, r, other);
    OverwrittenBlock(g, r, other, lost.hash);
  }

  lemma OverwrittenBlock(g: Config, r: NodeState, other: Block, h: Hash)
    requires g.persistent && NodeOk(g, r) && Takes(g, r, other) && NodeOk(g, Accept(g, r, other))
    requires HashKeyOf(h) in r.db && r.db[HashKeyOf(h)] == NumberValue(|r.chain|)
    ensures StoredByHash(Accept(g, r, other).db, h) == Some(other)
  {
    hide PoolOk, LinkedAt, Acceptable, Revalidated, DbAfter, AcceptWrites, Written, HashKeyOf;
    var after := Accept(g, r, other);
    AcceptedDb(g, r, other);
    HashKeyAfter(g, r, other, |AcceptWrites(g, r, other)|, h);
    assert StoredBlock(after.db, |r.chain|) == Some(after.chain[|r.chain|]);
  }

  lemma MendedIff(g: Config, n: NodeState, lost: Block, r: NodeState, other: Block)
    requires g.persistent && n.chain != [] && HashesAgree(n) && lost.index == other.index == |n.chain|
    requires 1 <= |AcceptWrites(g, n, lost)| && r.db == DbAfter(g, n, lost, 1) && r.chain == n.chain
    ensures HashKeyOf(lost.hash) in r.db && r.db[HashKeyOf(lost.hash)] == NumberValue(|n.chain|)
    ensures HashesAgree(Accept(g, r, other)) <==> other.hash == lost.hash
  {
    hide AcceptWrites, DbAfter, HashKeyOf, Written, Revalidated, ApplyOrKeep;
    var after, j := Accept(g, r, other), |AcceptWrites(g, r, other)|;
    AcceptedDb(g, r, other);
    HashKeyAfter(g, n, lost, 1, lost.hash);
    HashKeyAfter(g, r, other, j, lost.hash);
    if other.hash == lost.hash {
      forall i | 1 <= i < |after.chain| ensures HashKeyOf(after.chain[i].hash) in after.db {
        HashKeyAfter(g, n, lost, 1, after.chain[i].hash);
        HashKeyAfter(g, r, other, j, after.chain[i].hash);
        if i < |n.chain| {
          assert after.chain[i] == n.chain[i] && HashKeyOf(n.chain[i].hash) in n.db;
        }
      }
      forall h: Hash | HashKeyOf(h) in after.db ensures PointsAt(after, h) {
        HashKeyAfter(g, n, lost, 1, h);
        HashKeyAfter(g, r, other, j, h);
        if h != lost.hash {
          assert PointsAt(n, h);
          assert after.chain[n.db[HashKeyOf(h)].n] == n.chain[n.db[HashKeyOf(h)].n];
        }
      }
    } else {
      assert after.chain[|n.chain|] == other;
      assert !PointsAt(after, lost.hash);
    }
  }

  lemma RunOneMore(net: Net, events: seq<Event>, e: Event)
    requires net.authorities != []
    ensures Network.Run(net, events + [e]) == Step(net, Network.Run(net, events), e)
  {
    hide Step;
    assert (events + [e])[..|events|] == events;
  }

  /** The two steps of the scenario: death after the first write of the node's own block, then another block. */
  lemma TornThenOther(net: Net, s: System, q: nat, now: U64, later: U64)
    requires WellPlaced(net, s) && q < |s.nodes| && net.members[q].persistent
    requires ConfigOk(ConfigOf(net, q)) && NodeOk(ConfigOf(net, q), s.nodes[q])
    requires OwnTurn(ConfigOf(net, q), s.nodes[q])
    ensures var g, n := ConfigOf(net, q), s.nodes[q];
            var lost := Draft(g, n, now);
            && Takes(g, n, lost) && 1 <= |AcceptWrites(g, n, lost)|
            && var r := Boot(g, DbAfter(g, n, lost, 1));
            && Runs(g, r) && OwnTurn(g, r) && Takes(g, r, Draft(g, r, later))
            && var end := Step(net, Step(net, s, DieMaking(q, now, 1)), MakeBlock(q, later));
            && |end.nodes| == |net.members|
            && end.nodes[q] == Accept(g, r, Draft(g, r, later))
  {
    hide NodeOk, ConfigOk, Draft, Recovered, Takes, Accept, DbAfter, AcceptWrites;
    var g, n := ConfigOf(net, q), s.nodes[q];
    var lost := Draft(g, n, now);
    DraftIsTaken(g, n, now);
    WritesSomething(g, n, lost);
    var r := Boot(g, DbAfter(g, n, lost, 1));
    DbAfterIs(g, n, lost, 1);
    CrashRecovery(g, n, lost, 1);
    NodeHasGenesis(g, r);
    DraftIsTaken(g, r, later);
    var mid := Step(net, s, DieMaking(q, now, 1));
    assert mid.nodes == s.nodes[q := r];
  }

  lemma WritesSomething(g: Config, n: NodeState, b: Block)
    requires g.persistent
    ensures 2 <= |AcceptWrites(g, n, b)|
  {
    hide BlockWrite, HeightWrite, ApplyOrKeep, AccountWrites;
  }

  /** This is reachable: after any clean run that leaves a persistent node on its turn, the node dies making
      its block, between the first two writes, restarts and makes another block with another hash. */
  lemma StaleHashIsReachable(net: Net, events: seq<Event>, q: nat, now: U64, later: U64)
    requires NetOk(net) && |events| + 2 <= MAX_U64 && q < |net.members| && net.members[q].persistent
    requires AllClean(net, events, q) && |Network.Run(net, events).nodes| == |net.members|
    requires Runs(ConfigOf(net, q), Network.Run(net, events).nodes[q])
    requires OwnTurn(ConfigOf(net, q), Network.Run(net, events).nodes[q])
    ensures var g, n := ConfigOf(net, q), Network.Run(net, events).nodes[q];
            var lost := Draft(g, n, now);
            && 1 <= |AcceptWrites(g, n, lost)|
            && var r := Boot(g, DbAfter(g, n, lost, 1));
            && Runs(g, r)
            && var end := Network.Run(net, events + [DieMaking(q, now, 1)] + [MakeBlock(q, later)]);
            && |end.nodes| == |net.members|
            && StoredByHash(end.nodes[q].db, lost.hash) == Some(Draft(g, r, later))
            && (HashesAgree(end.nodes[q]) <==> Draft(g, r, later).hash == lost.hash)
  {
    hide NodeOk, HashesAgree, AllClean, ConfigOk, NoFork, AllBacked, AllApply, Draft, AccountsAgree, Recovered, Takes,
      Accept, StoredByHash, AllLow, Step, DbAfter, AcceptWrites, Network.Run;
    RunKeepsInv(net, events);
    RunKeepsIndexes(net, events, q);
    MemberConfigOk(net, q);
    var s := Network.Run(net, events);
    assert MemberOk(net, s.nodes, q);
    var g, n := ConfigOf(net, q), s.nodes[q];
    TornThenOther(net, s, q, now, later);
    var r := Boot(g, DbAfter(g, n, Draft(g, n, now), 1));
    StaleHashIff(g, n, Draft(g, n, now), r, Draft(g, r, later));
    RunOneMore(net, events, DieMaking(q, now, 1));
    RunOneMore(net, events + [DieMaking(q, now, 1)], MakeBlock(q, later));
  }

  /** The timestamp of a block header, if the value is one. */
  function Stamp(j: Json): int
  {
    if j.Object? && j.fields.Field? && j.fields.rest.Field? && j.fields.rest.rest.Field?
       && j.fields.rest.rest.value.Number?
    then j.fields.rest.rest.value.n
    else 0
  }

  function Ones(): Hash
  {
    seq(32, _ => 1)
  }

  /** The smallest network in which this happens: one node, and hashes that tell timestamp 1 from 0. */
  function OneNodeNet(): Net
  {
    var crypto := Suite(
      x => if x == Codes("1") then Ones() else ZeroHash(),
      j => if Stamp(j) == 1 then "1" else "0",
      (h, k) => [],
      (h, s, k) => true);
    var keys := KeyPair(ZeroHash(), seq(33, _ => 0));
    Net(crypto, [ZeroAddress()], map[], keys, [Member(keys, true)])
  }

  /** A concrete failing input: the node dies after the first write of a block made at time 1, restarts, and
      makes a block at time 0. Its hash entries then disagree with its chain. */
  lemma StaleHashHappens()
    ensures NetOk(OneNodeNet())
    ensures |Network.Run(OneNodeNet(), [DieMaking(0, 1, 1), MakeBlock(0, 0)]).nodes| == 1
    ensures !HashesAgree(Network.Run(OneNodeNet(), [DieMaking(0, 1, 1), MakeBlock(0, 0)]).nodes[0])
  {
    hide HashesAgree, Network.Run, AllClean, StoredByHash, Boot, AcceptWrites, DbAfter, Takes, OneNodeNet, Draft, Inv,
      NetOk, Ones;
    var net := OneNodeNet();
    OneNodeNetOk();
    var g := ConfigOf(net, 0);
    var start := Network.Run(net, []);
    NothingUnclean(net, 0);
    StartTurn();
    StaleHashIsReachable(net, [], 0, 1, 0);
    var n := start.nodes[0];
    var r := Boot(g, DbAfter(g, n, Draft(g, n, 1), 1));
    DraftHash(n, 1);
    DraftHash(r, 0);
    OnesAreNotZeros();
    assert [] + [DieMaking(0, 1, 1)] + [MakeBlock(0, 0)] == [DieMaking(0, 1, 1), MakeBlock(0, 0)];
  }

  lemma NothingUnclean(net: Net, i: nat)
    requires net.authorities != []
    ensures AllClean(net, [], i)
  {
  }

  lemma OneNodeNetOk()
    ensures NetOk(OneNodeNet()) && OneNodeNet().authorities != []
    ensures |OneNodeNet().members| == 1 && OneNodeNet().members[0].persistent
  {
    assert GenesisAccounts(OneNodeNet().allocations) == map[];
  }

  lemma OnesAreNotZeros()
    ensures Ones() != ZeroHash()
  {
    assert Ones()[0] != ZeroHash()[0];
  }

  lemma OneAddress()
    ensures NodeAddress(ConfigOf(OneNodeNet(), 0)) == ZeroAddress()
  {
    var key: PublicKey := seq(33, _ => 0);
    assert |key| != |Codes("1")|;
    assert ZeroHash()[12..] == ZeroAddress();
  }

  lemma StartTurn()
    ensures |Network.Run(OneNodeNet(), []).nodes| == 1
    ensures Runs(ConfigOf(OneNodeNet(), 0), Network.Run(OneNodeNet(), []).nodes[0])
    ensures OwnTurn(ConfigOf(OneNodeNet(), 0), Network.Run(OneNodeNet(), []).nodes[0])
  {
    hide Boot;
    OneAddress();
    OneNodeNetOk();
    RunKeepsInv(OneNodeNet(), []);
    assert |Network.Run(OneNodeNet(), []).nodes[0].chain| % 1 == 0;
  }

  /** The hash of a block made at time 1 is all ones, at time 0 all zeros. */
  lemma DraftHash(n: NodeState, now: U64)
    requires n.chain != [] && now <= 1
    ensures Draft(ConfigOf(OneNodeNet(), 0), n, now).hash == if now == 1 then Ones() else ZeroHash()
  {
    hide Selected;
    assert Codes("0")[0] != Codes("1")[0];
  }
}

/** The key-value store behind a node (src/storage/storage.cpp). Each element of a write list is one
    atomic put or batch. */
module Stores {
  import opened Common
  import opened Text
  import opened Records
  import opened Ledger
  import opened Numerals

  datatype Value = BlockValue(block: Block) | NumberValue(n: nat) | AccountValue(account: Account)

  type Db = map<string, Value>
  type Write = map<string, Value>

  /** Zero-padded to eight digits. */
  function PadIndex(index: nat): string
  {
    var s := Decimal(index);
    Zeros(if |s| < 8 then 8 - |s| else 0) + s
  }

  const BLOCK_PREFIX := "b:"
  const HASH_PREFIX := "h:"
  const ACCOUNT_PREFIX := "a:"
  const HEIGHT_KEY := "m:height"

  function BlockKey(index: nat): string
  {
    BLOCK_PREFIX + PadIndex(index)
  }

  function HashKeyOf(hash: Hash): string
  {
    HASH_PREFIX + Hex(hash)
  }

  function AccountKey(a: Address): string
  {
    ACCOUNT_PREFIX + Hex(a)
  }

  /** Distinct things are stored under distinct keys. */
  lemma KeysApart(i: nat, j: nat, g: Hash, h: Hash, a: Address, b: Address)
    ensures BlockKey(i) == BlockKey(j) ==> i == j
    ensures HashKeyOf(g) == HashKeyOf(h) ==> g == h
    ensures AccountKey(a) == AccountKey(b) ==> a == b
    ensures BlockKey(i) != HashKeyOf(g) && BlockKey(i) != AccountKey(a) && BlockKey(i) != HEIGHT_KEY
    ensures HashKeyOf(g) != AccountKey(a) && HashKeyOf(g) != HEIGHT_KEY && AccountKey(a) != HEIGHT_KEY
  {
    assert BlockKey(i)[0] == 'b' && HashKeyOf(g)[0] == 'h' && AccountKey(a)[0] == 'a' && HEIGHT_KEY[0] == 'm';
    assert BlockKey(i)[2..] == PadIndex(i) && BlockKey(j)[2..] == PadIndex(j);
    assert HashKeyOf(g)[2..] == Hex(g) && HashKeyOf(h)[2..] == Hex(h);
    assert AccountKey(a)[2..] == Hex(a) && AccountKey(b)[2..] == Hex(b);
    PadIndexInjective(i, j);
    if Hex(g) == Hex(h) { HexInjective(g, h); }
    if Hex(a) == Hex(b) { HexInjective(a, b); }
  }

  lemma PadIndexInjective(i: nat, j: nat)
    ensures PadIndex(i) == PadIndex(j) ==> i == j
  {
    DecimalValue(i);
    DecimalValue(j);
    ZerosValue(if |Decimal(i)| < 8 then 8 - |Decimal(i)| else 0, Decimal(i));
    ZerosValue(if |Decimal(j)| < 8 then 8 - |Decimal(j)| else 0, Decimal(j));
  }

  /** Below 10^8, iterating over block keys in byte order is iterating in numeric order. */
  lemma PadIndexOrdered(i: nat, j: nat)
    requires i < j < 100_000_000
    ensures LexLess(Codes(PadIndex(i)), Codes(PadIndex(j)))
  {
    PadIsFixedWidth(i);
    PadIsFixedWidth(j);
    assert Power10(8) == 100_000_000;
    FixedWidthOrdered(i, j, 8);
  }

  lemma PadIsFixedWidth(i: nat)
    requires i < 100_000_000
    ensures PadIndex(i) == FixedWidth(i, 8)
  {
    assert Power10(8) == 100_000_000;
    DecimalWidth(i, 8);
    FixedWidthIsPadded(i, 8);
  }

  lemma NinesStartWithNine()
    ensures Codes(PadIndex(99_999_999)) != [] && Codes(PadIndex(99_999_999))[0] == '9' as int
  {
    assert Scaled(9, 7) == 90_000_000 && Scaled(10, 7) == 100_000_000;
    LeadingDigit(99_999_999, 9, 7);
  }

  lemma HundredMillionStartsWithOne()
    ensures Codes(PadIndex(100_000_000)) != [] && Codes(PadIndex(100_000_000))[0] == '1' as int
  {
    assert Scaled(1, 8) == 100_000_000 && Scaled(2, 8) == 200_000_000;
    LeadingDigit(100_000_000, 1, 8);
  }

  ghost predicate InByteOrder(i: nat, j: nat)
  {
    LexLess(Codes(PadIndex(i)), Codes(PadIndex(j)))
  }

  /** The exact range in which byte order of padded indices is numeric order. */
  lemma PadIndexOrderedIff(limit: nat)
    ensures (forall i: nat, j: nat :: i < j < limit ==> InByteOrder(i, j)) <==> limit <= 100_000_000
  {
    if limit <= 100_000_000 {
      forall i: nat, j: nat | i < j < limit ensures InByteOrder(i, j) {
        PadIndexOrdered(i, j);
      }
    } else {
      PadIndexOrderBreaks();
      assert !InByteOrder(99_999_999, 100_000_000);
    }
  }

  /** At 10^8 the order breaks. */
  lemma PadIndexOrderBreaks()
    ensures !LexLess(Codes(PadIndex(99_999_999)), Codes(PadIndex(100_000_000)))
  {
    NinesStartWithNine();
    HundredMillionStartsWithOne();
  }

  // ---------------------------------------------------------------- reads and writes

  function StoredHeight(db: Db): nat
  {
    if HEIGHT_KEY in db && db[HEIGHT_KEY].NumberValue? then db[HEIGHT_KEY].n else 0
  }

  function StoredBlock(db: Db, index: nat): Option<Block>
  {
    if BlockKey(index) in db && db[BlockKey(index)].BlockValue? then Some(db[BlockKey(index)].block) else None
  }

  function StoredByHash(db: Db, hash: Hash): Option<Block>
  {
    if HashKeyOf(hash) in db && db[HashKeyOf(hash)].NumberValue? then StoredBlock(db, db[HashKeyOf(hash)].n)
    else None
  }

  function StoredAccount(db: Db, a: Address): Option<Account>
  {
    if AccountKey(a) in db && db[AccountKey(a)].AccountValue? then Some(db[AccountKey(a)].account) else None
  }

  /** Block and hash index, in one batch. */
  function BlockWrite(b: Block): Write
  {
    map[BlockKey(b.index) := BlockValue(b), HashKeyOf(b.hash) := NumberValue(b.index)]
  }

  function HeightWrite(height: nat): Write
  {
    map[HEIGHT_KEY := NumberValue(height)]
  }

  function AccountWrite(s: Accounts, a: Address): seq<Write>
  {
    if a in s then [map[AccountKey(a) := AccountValue(s[a])]] else []
  }

  /** Sender and recipient of each transaction, if they have accounts. */
  function AccountWrites(c: Suite, s: Accounts, txs: seq<Transaction>): seq<Write>
  {
    if txs == [] then []
    else
      var tx := txs[|txs| - 1];
      AccountWrites(c, s, txs[..|txs| - 1])
      + AccountWrite(s, DeriveAddress(c, tx.senderPublicKey)) + AccountWrite(s, tx.recipient)
  }

  /** Everything afterBlockAccepted writes, in order. */
  function BlockWrites(c: Suite, s: Accounts, height: nat, b: Block): seq<Write>
  {
    [BlockWrite(b), HeightWrite(height)] + AccountWrites(c, s, b.transactions)
  }

  function Written(db: Db, writes: seq<Write>): Db
  {
    if writes == [] then db else Written(db, writes[..|writes| - 1]) + writes[|writes| - 1]
  }

  lemma {:induction false} WrittenConcat(db: Db, xs: seq<Write>, ys: seq<Write>)
    ensures Written(db, xs + ys) == Written(Written(db, xs), ys)
  {
    if ys == [] {
      assert xs + ys == xs;
    } else {
      var n := |ys| - 1;
      WrittenConcat(db, xs, ys[..n]);
      assert (xs + ys)[..|xs + ys| - 1] == xs + ys[..n];
    }
  }

  lemma WrittenAppend(db: Db, writes: seq<Write>, w: Write)
    ensures Written(db, writes + [w]) == Written(db, writes) + w
  {
    assert (writes + [w])[..|writes|] == writes;
  }

  // ---------------------------------------------------------------- what is read back

  /** After a block is saved: it is found under its index, and under its hash and any other hash whose entry
      points at that index; everything else reads as before. */
  lemma BlockReadsBack(db: Db, b: Block, i: nat, h: Hash, x: Address)
    ensures StoredBlock(db + BlockWrite(b), i) == if i == b.index then Some(b) else StoredBlock(db, i)
    ensures StoredByHash(db + BlockWrite(b), h)
            == if h == b.hash || (HashKeyOf(h) in db && db[HashKeyOf(h)] == NumberValue(b.index)) then Some(b)
               else StoredByHash(db, h)
    ensures StoredAccount(db + BlockWrite(b), x) == StoredAccount(db, x)
    ensures StoredHeight(db + BlockWrite(b)) == StoredHeight(db)
  {
    hide BlockKey, HashKeyOf, AccountKey, PadIndex;
    KeysApart(i, b.index, b.hash, h, x, x);
    KeysApart(b.index, i, h, b.hash, x, x);
    if HashKeyOf(h) in db && db[HashKeyOf(h)].NumberValue? {
      KeysApart(db[HashKeyOf(h)].n, b.index, b.hash, h, x, x);
    }
  }

  /** After an account is saved: it is read back, and everything else reads as before. */
  lemma AccountReadsBack(db: Db, a: Address, account: Account, i: nat, h: Hash, x: Address)
    ensures var after := db[AccountKey(a) := AccountValue(account)];
            && StoredAccount(after, x) == (if x == a then Some(account) else StoredAccount(db, x))
            && StoredBlock(after, i) == StoredBlock(db, i)
            && StoredByHash(after, h) == StoredByHash(db, h)
            && StoredHeight(after) == StoredHeight(db)
  {
    hide BlockKey, HashKeyOf, AccountKey;
    KeysApart(i, i, h, h, x, a);
    KeysApart(i, i, h, h, a, a);
    if HashKeyOf(h) in db && db[HashKeyOf(h)].NumberValue? {
      KeysApart(db[HashKeyOf(h)].n, i, h, h, a, a);
    }
  }

  /** After the height is saved: it is read back, and everything else reads as before. */
  lemma HeightReadsBack(db: Db, height: nat, i: nat, h: Hash, x: Address)
    ensures StoredHeight(db + HeightWrite(height)) == height
    ensures StoredBlock(db + HeightWrite(height), i) == StoredBlock(db, i)
    ensures StoredByHash(db + HeightWrite(height), h) == StoredByHash(db, h)
    ensures StoredAccount(db + HeightWrite(height), x) == StoredAccount(db, x)
  {
    hide BlockKey, HashKeyOf, AccountKey;
    KeysApart(i, i, h, h, x, x);
    if HashKeyOf(h) in db && db[HashKeyOf(h)].NumberValue? {
      KeysApart(db[HashKeyOf(h)].n, i, h, h, x, x);
    }
  }

  // ---------------------------------------------------------------- the store object

  class Storage {
    var db: Db

    /** The atomic writes so far, in order, and the database they started from. */
    ghost var log: seq<Write>
    ghost const start: Db

    ghost predicate Valid()
      reads this
    {
      db == Written(start, log)
    }

    constructor ()
      ensures Valid() && db == map[] && log == []
    {
      db, start, log := map[], map[], [];
    }

    method SaveBlock(b: Block)
      requires Valid()
      modifies this
      ensures Valid() && log == old(log) + [BlockWrite(b)] && db == old(db) + BlockWrite(b)
      ensures StoredBlock(db, b.index) == Some(b) && StoredByHash(db, b.hash) == Some(b)
    {
      BlockReadsBack(db, b, b.index, b.hash, ZeroAddress());
      WrittenAppend(start, log, BlockWrite(b));
      log := log + [BlockWrite(b)];
      db := db + map[BLOCK_PREFIX + PadIndex(b.index) := BlockValue(b),
                     HASH_PREFIX + Hex(b.hash) := NumberValue(b.index)];
    }

    method LoadBlock(index: nat) returns (r: Option<Block>)
      ensures r == StoredBlock(db, index)
    {
      var key := BlockKey(index);
      if key in db && db[key].BlockValue? {
        return Some(db[key].block);
      }
      return None;
    }

    method LoadBlockByHash(hash: Hash) returns (r: Option<Block>)
      ensures r == StoredByHash(db, hash)
    {
      var key := HashKeyOf(hash);
      if key !in db || !db[key].NumberValue? {
        return None;
      }
      r := LoadBlock(db[key].n);
    }

    method SaveAccountState(a: Address, account: Account)
      requires Valid()
      modifies this
      ensures Valid() && log == old(log) + [map[AccountKey(a) := AccountValue(account)]]
      ensures db == old(db)[AccountKey(a) := AccountValue(account)]
      ensures forall x: Address ::
                StoredAccount(db, x) == if x == a then Some(account) else StoredAccount(old(db), x)
      ensures forall i: nat :: StoredBlock(db, i) == StoredBlock(old(db), i)
      ensures forall h: Hash :: StoredByHash(db, h) == StoredByHash(old(db), h)
      ensures StoredHeight(db) == StoredHeight(old(db))
    {
      hide StoredBlock, StoredByHash, StoredAccount, StoredHeight, AccountKey, Written;
      ghost var before := db;
      WrittenAppend(start, log, map[AccountKey(a) := AccountValue(account)]);
      log := log + [map[AccountKey(a) := AccountValue(account)]];
      db := db[AccountKey(a) := AccountValue(account)];
      AccountReadsBack(before, a, account, 0, ZeroHash(), a);
      forall x: Address ensures StoredAccount(db, x) == if x == a then Some(account) else StoredAccount(before, x) {
        AccountReadsBack(before, a, account, 0, ZeroHash(), x);
      }
      forall i: nat ensures StoredBlock(db, i) == StoredBlock(before, i) {
        AccountReadsBack(before, a, account, i, ZeroHash(), a);
      }
      forall h: Hash ensures StoredByHash(db, h) == StoredByHash(before, h) {
        AccountReadsBack(before, a, account, 0, h, a);
      }
    }

    method LoadAccountState(a: Address) returns (r: Option<Account>)
      ensures r == StoredAccount(db, a)
    {
      var key := AccountKey(a);
      if key in db && db[key].AccountValue? {
        return Some(db[key].account);
      }
      return None;
    }

    method SaveChainHeight(height: nat)
      requires Valid()
      modifies this
      ensures Valid() && log == old(log) + [HeightWrite(height)] && db == old(db) + HeightWrite(height)
      ensures StoredHeight(db) == height
    {
      hide Written;
      WrittenAppend(start, log, HeightWrite(height));
      log := log + [HeightWrite(height)];
      db := db[HEIGHT_KEY := NumberValue(height)];
    }

    method LoadChainHeight() returns (height: nat)
      ensures height == StoredHeight(db)
    {
      if HEIGHT_KEY !in db || !db[HEIGHT_KEY].NumberValue? {
        return 0;
      }
      return db[HEIGHT_KEY].n;
    }
  }
}

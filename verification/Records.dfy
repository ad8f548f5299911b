/** Transactions and blocks, how they are hashed, signed and verified
    (src/core/transaction.cpp, src/core/block.cpp). */
module Records {
  import opened Common
  import opened Text

  /** The foreign libraries: hashing, JSON printing, signing. Nothing is assumed about them except
      where a lemma says so. */
  datatype Suite = Suite(
    sha256: seq<int> -> Hash,
    dump: Json -> string,
    sign: (Hash, PrivateKey) -> Signature,
    verify: (Hash, Signature, PublicKey) -> bool)

  datatype KeyPair = KeyPair(privateKey: PrivateKey, publicKey: PublicKey)

  /** The key pair matches: what its private half signs, its public half accepts. */
  ghost predicate SignsFor(c: Suite, keys: KeyPair)
  {
    forall h: Hash :: c.verify(h, c.sign(h, keys.privateKey), keys.publicKey)
  }

  /** Two distinct inputs with the same digest. */
  ghost predicate Collision(c: Suite, x: seq<int>, y: seq<int>)
  {
    x != y && c.sha256(x) == c.sha256(y)
  }

  function DeriveAddress(c: Suite, key: PublicKey): Address
  {
    c.sha256(key)[12..]
  }

  datatype Transaction = Transaction(
    sender: Address,
    recipient: Address,
    amount: U64,
    nonce: U64,
    timestamp: U64,
    senderPublicKey: PublicKey,
    signature: Signature,
    hash: Hash)

  datatype Block = Block(
    index: nat,
    timestamp: U64,
    previousHash: Hash,
    validator: Address,
    validatorPublicKey: PublicKey,
    transactions: seq<Transaction>,
    signature: Signature,
    hash: Hash)

  /** The signable fields, to which toJson adds hash and signature. */
  function SignableJson(tx: Transaction): Json
  {
    Object(
      Field(AmountKey, Number(tx.amount),
      Field(NonceKey, Number(tx.nonce),
      Field(RecipientKey, Str(Hex(tx.recipient)),
      Field(SenderKey, Str(Hex(tx.sender)),
      Field(SenderPublicKeyKey, Str(Hex(tx.senderPublicKey)),
      Field(TimestampKey, Number(tx.timestamp), End)))))))
  }

  function TransactionHash(c: Suite, tx: Transaction): Hash
  {
    c.sha256(Codes(c.dump(SignableJson(tx))))
  }

  predicate VerifyTransaction(c: Suite, tx: Transaction)
  {
    && DeriveAddress(c, tx.senderPublicKey) == tx.sender
    && TransactionHash(c, tx) == tx.hash
    && c.verify(tx.hash, tx.signature, tx.senderPublicKey)
  }

  function SignTransaction(c: Suite, tx: Transaction, key: PrivateKey): Transaction
  {
    Transaction(tx.sender, tx.recipient, tx.amount, tx.nonce, tx.timestamp, tx.senderPublicKey,
                c.sign(TransactionHash(c, tx), key), TransactionHash(c, tx))
  }

  /** The clock is an input. */
  function CreateTransaction(c: Suite, keys: KeyPair, recipient: Address, amount: U64, nonce: U64,
                             now: U64): Transaction
  {
    SignTransaction(c,
      Transaction(DeriveAddress(c, keys.publicKey), recipient, amount, nonce, now, keys.publicKey, [], ZeroHash()),
      keys.privateKey)
  }

  /** What is signed with a matching key verifies; under another signature exactly if that verifies too, and
      under another sender address or another hash not at all. */
  lemma CreatedTransactionsVerify(c: Suite, keys: KeyPair, recipient: Address, amount: U64, nonce: U64, now: U64)
    requires SignsFor(c, keys)
    ensures VerifyTransaction(c, CreateTransaction(c, keys, recipient, amount, nonce, now))
    ensures var tx := CreateTransaction(c, keys, recipient, amount, nonce, now);
            && (forall s: Signature ::
                  VerifyTransaction(c, tx.(signature := s)) <==> c.verify(tx.hash, s, keys.publicKey))
            && (forall a: Address :: a != tx.sender ==> !VerifyTransaction(c, tx.(sender := a)))
            && (forall h: Hash :: h != tx.hash ==> !VerifyTransaction(c, tx.(hash := h)))
  {
    var tx := CreateTransaction(c, keys, recipient, amount, nonce, now);
    forall s: Signature ensures SignableJson(tx.(signature := s)) == SignableJson(tx) {
    }
    forall h: Hash ensures SignableJson(tx.(hash := h)) == SignableJson(tx) {
    }
    var blank :=
      Transaction(DeriveAddress(c, keys.publicKey), recipient, amount, nonce, now, keys.publicKey, [], ZeroHash());
    assert SignableJson(SignTransaction(c, blank, keys.privateKey)) == SignableJson(blank);
  }

  /** All transaction hashes, one after the other. */
  function JoinHashes(txs: seq<Transaction>): (r: seq<Byte>)
    ensures |r| == 32 * |txs|
  {
    if txs == [] then [] else JoinHashes(txs[..|txs| - 1]) + txs[|txs| - 1].hash
  }

  method ComputeTransactionRootHash(c: Suite, txs: seq<Transaction>) returns (root: Hash)
    ensures root == RootHash(c, txs)
  {
    var combined: seq<Byte> := [];
    for i := 0 to |txs|
      invariant combined == JoinHashes(txs[..i])
    {
      assert txs[..i + 1][..i] == txs[..i];
      combined := combined + txs[i].hash;
    }
    assert txs[..|txs|] == txs;
    root := c.sha256(combined);
  }

  function RootHash(c: Suite, txs: seq<Transaction>): Hash
  {
    c.sha256(JoinHashes(txs))
  }

  function HeaderJson(c: Suite, b: Block): Json
  {
    Object(
      Field(IndexKey, Number(b.index),
      Field(PreviousHashKey, Str(Hex(b.previousHash)),
      Field(TimestampKey, Number(b.timestamp),
      Field(TransactionRootHashKey, Str(Hex(RootHash(c, b.transactions))),
      Field(ValidatorKey, Str(Hex(b.validator)),
      Field(ValidatorPublicKeyKey, Str(Hex(b.validatorPublicKey)), End)))))))
  }

  function BlockHash(c: Suite, b: Block): Hash
  {
    c.sha256(Codes(c.dump(HeaderJson(c, b))))
  }

  function SignBlock(c: Suite, b: Block, key: PrivateKey): Block
  {
    Block(b.index, b.timestamp, b.previousHash, b.validator, b.validatorPublicKey, b.transactions,
          c.sign(BlockHash(c, b), key), BlockHash(c, b))
  }

  function CreateGenesisBlock(c: Suite, keys: KeyPair): Block
  {
    SignBlock(c,
      Block(0, 0, ZeroHash(), DeriveAddress(c, keys.publicKey), keys.publicKey, [], [], ZeroHash()),
      keys.privateKey)
  }

  /** The clock is an input. */
  function CreateBlock(c: Suite, keys: KeyPair, previous: Block, txs: seq<Transaction>, now: U64): Block
  {
    SignBlock(c,
      Block(previous.index + 1, now, previous.hash, DeriveAddress(c, keys.publicKey), keys.publicKey,
            txs, [], ZeroHash()),
      keys.privateKey)
  }

  predicate VerifyEach(c: Suite, txs: seq<Transaction>)
  {
    txs == [] || (VerifyEach(c, txs[..|txs| - 1]) && VerifyTransaction(c, txs[|txs| - 1]))
  }

  lemma {:induction false} VerifyEachMeans(c: Suite, txs: seq<Transaction>)
    ensures VerifyEach(c, txs) <==> forall t :: t in txs ==> VerifyTransaction(c, t)
  {
    if txs != [] {
      VerifyEachMeans(c, txs[..|txs| - 1]);
      assert txs == txs[..|txs| - 1] + [txs[|txs| - 1]];
    }
  }

  predicate VerifyBlock(c: Suite, b: Block)
  {
    && DeriveAddress(c, b.validatorPublicKey) == b.validator
    && BlockHash(c, b) == b.hash
    && c.verify(b.hash, b.signature, b.validatorPublicKey)
    && VerifyEach(c, b.transactions)
  }

  /** Whatever is signed with a matching key verifies exactly if its transactions do; under another signature
      exactly if that verifies too, and under another validator address or another hash not at all. */
  lemma CreatedBlocksVerify(c: Suite, keys: KeyPair, previous: Block, txs: seq<Transaction>, now: U64)
    requires SignsFor(c, keys)
    ensures VerifyBlock(c, CreateGenesisBlock(c, keys))
    ensures VerifyBlock(c, CreateBlock(c, keys, previous, txs, now))
            <==> VerifyEach(c, txs)
    ensures var b := CreateBlock(c, keys, previous, txs, now);
            && (forall s: Signature ::
                  VerifyBlock(c, b.(signature := s)) <==> c.verify(b.hash, s, keys.publicKey) && VerifyEach(c, txs))
            && (forall a: Address :: a != b.validator ==> !VerifyBlock(c, b.(validator := a)))
            && (forall h: Hash :: h != b.hash ==> !VerifyBlock(c, b.(hash := h)))
  {
    var b := CreateBlock(c, keys, previous, txs, now);
    forall s: Signature ensures HeaderJson(c, b.(signature := s)) == HeaderJson(c, b) {
    }
    forall h: Hash ensures HeaderJson(c, b.(hash := h)) == HeaderJson(c, b) {
    }
    HashIgnoresSeal(c,
      Block(0, 0, ZeroHash(), DeriveAddress(c, keys.publicKey), keys.publicKey, [], [], ZeroHash()),
      keys.privateKey);
    HashIgnoresSeal(c,
      Block(previous.index + 1, now, previous.hash, DeriveAddress(c, keys.publicKey), keys.publicKey,
            txs, [], ZeroHash()),
      keys.privateKey);
  }

  /** The block hash does not cover the hash and signature fields. */
  lemma HashIgnoresSeal(c: Suite, b: Block, key: PrivateKey)
    ensures BlockHash(c, SignBlock(c, b, key)) == SignBlock(c, b, key).hash
  {
    assert HeaderJson(c, SignBlock(c, b, key)) == HeaderJson(c, b);
  }
}

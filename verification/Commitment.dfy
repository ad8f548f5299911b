/** A block hash commits to the whole chain behind it (src/core/block.cpp:46-103, src/core/transaction.cpp:44-66). */
module Commitment {
  import opened Common
  import opened Text
  import opened Numerals
  import opened Records
  import opened Ledger
  import opened Chains

  function KeyName(key: Key): string
  {
    match key
    case AmountKey => "amount"
    case BlocksKey => "blocks"
    case FromKey => "from"
    case HashKey => "hash"
    case IndexKey => "index"
    case NonceKey => "nonce"
    case PayloadKey => "payload"
    case PreviousHashKey => "previousHash"
    case RecipientKey => "recipient"
    case SenderKey => "sender"
    case SenderPublicKeyKey => "senderPublicKey"
    case SignatureKey => "signature"
    case TimestampKey => "timestamp"
    case TransactionRootHashKey => "transactionRootHash"
    case TransactionsKey => "transactions"
    case TypeKey => "type"
    case ValidatorKey => "validator"
    case ValidatorPublicKeyKey => "validatorPublicKey"
  }

  /** Compact JSON text of an object whose members are numbers and plain strings. */
  function DumpFields(f: Fields): string
    decreases f, 0
  {
    match f
    case End => ""
    case Field(key, value, rest) =>
      Quoted(key) + (DumpScalar(value) + Tail(rest))
  }

  function Tail(rest: Fields): string
    decreases rest, 1
  {
    if rest.End? then "" else "," + DumpFields(rest)
  }

  function Quoted(key: Key): string
  {
    "\"" + KeyName(key) + "\":"
  }

  function DumpScalar(j: Json): string
  {
    match j
    case Number(n) => Decimal(n)
    case Str(text) => "\"" + text + "\""
    case Array(_) => ""
    case Object(_) => ""
  }

  /** The JSON library prints the two hashed objects compactly, members in key order. */
  ghost predicate PrintsCompactly(c: Suite)
  {
    && (forall tx: Transaction :: c.dump(SignableJson(tx)) == "{" + DumpFields(SignableJson(tx).fields) + "}")
    && (forall b: Block :: c.dump(HeaderJson(c, b)) == "{" + DumpFields(HeaderJson(c, b).fields) + "}")
  }

  ghost predicate SameShape(f: Fields, g: Fields)
  {
    match f
    case End => g.End?
    case Field(key, value, rest) =>
      && g.Field? && g.key == key && SameShape(rest, g.rest)
      && ((value.Number? && g.value.Number?)
          || (value.Str? && g.value.Str? && |value.text| == |g.value.text|))
  }

  ghost predicate Delimited(s: string)
  {
    s != "" && !IsDigit(s[0])
  }

  lemma SplitEqual(p: string, q: string, r: string, s: string)
    requires p + r == q + s && |p| == |q|
    ensures p == q && r == s
  {
    assert p == (p + r)[..|p|] && q == (q + s)[..|q|];
    assert r == (p + r)[|p|..] && s == (q + s)[|q|..];
  }

  lemma DecimalLonger(m: nat, n: nat, r: string, s: string)
    requires Decimal(m) + r == Decimal(n) + s && Delimited(r)
    ensures |Decimal(m)| >= |Decimal(n)|
  {
    assert (Decimal(m) + r)[|Decimal(m)|] == r[0];
    assert forall i :: 0 <= i < |Decimal(n)| ==> (Decimal(n) + s)[i] == Decimal(n)[i];
  }

  lemma DecimalDelimited(m: nat, n: nat, r: string, s: string)
    requires Decimal(m) + r == Decimal(n) + s && Delimited(r) && Delimited(s)
    ensures m == n && r == s
  {
    DecimalLonger(m, n, r, s);
    DecimalLonger(n, m, s, r);
    SplitEqual(Decimal(m), Decimal(n), r, s);
    DecimalValue(m);
    DecimalValue(n);
  }

  lemma ScalarDelimited(x: Json, y: Json, r: string, s: string)
    requires DumpScalar(x) + r == DumpScalar(y) + s && Delimited(r) && Delimited(s)
    requires (x.Number? && y.Number?) || (x.Str? && y.Str? && |x.text| == |y.text|)
    ensures x == y && r == s
  {
    if x.Number? {
      DecimalDelimited(x.n, y.n, r, s);
    } else {
      SplitEqual(DumpScalar(x), DumpScalar(y), r, s);
      assert x.text == DumpScalar(x)[1..|x.text| + 1] && y.text == DumpScalar(y)[1..|y.text| + 1];
    }
  }

  lemma Regroup(p: string, q: string, t: string, r: string)
    ensures p + (q + t) + r == p + (q + (t + r))
  {
  }

  lemma TailDelimited(rest: Fields, r: string)
    requires Delimited(r)
    ensures Delimited(Tail(rest) + r)
  {
  }

  lemma FieldHead(f: Fields, g: Fields, r: string, s: string)
    requires f.Field? && g.Field? && SameShape(f, g)
    requires DumpFields(f) + r == DumpFields(g) + s && Delimited(r) && Delimited(s)
    ensures f.value == g.value && Tail(f.rest) + r == Tail(g.rest) + s
  {
    hide Quoted, DumpScalar, Tail;
    Regroup(Quoted(f.key), DumpScalar(f.value), Tail(f.rest), r);
    Regroup(Quoted(f.key), DumpScalar(g.value), Tail(g.rest), s);
    SplitEqual(Quoted(f.key), Quoted(f.key),
               DumpScalar(f.value) + (Tail(f.rest) + r), DumpScalar(g.value) + (Tail(g.rest) + s));
    TailDelimited(f.rest, r);
    TailDelimited(g.rest, s);
    ScalarDelimited(f.value, g.value, Tail(f.rest) + r, Tail(g.rest) + s);
  }

  lemma TailText(rest: Fields, r: string)
    requires rest.Field?
    ensures Tail(rest) + r == "," + (DumpFields(rest) + r)
  {
    hide DumpFields;
  }

  /** Two objects with the same keys and string lengths are told apart by their text. */
  lemma {:induction false} FieldsInjective(f: Fields, g: Fields, r: string, s: string)
    requires SameShape(f, g) && DumpFields(f) + r == DumpFields(g) + s && Delimited(r) && Delimited(s)
    ensures f == g
    decreases f
  {
    hide DumpFields, Tail;
    if f.Field? {
      FieldHead(f, g, r, s);
      if f.rest.Field? {
        TailText(f.rest, r);
        TailText(g.rest, s);
        SplitEqual(",", ",", DumpFields(f.rest) + r, DumpFields(g.rest) + s);
        FieldsInjective(f.rest, g.rest, r, s);
      }
    }
  }

  lemma {:induction false} ObjectsInjective(f: Fields, g: Fields)
    requires SameShape(f, g) && "{" + DumpFields(f) + "}" == "{" + DumpFields(g) + "}"
    ensures f == g
  {
    assert "{" + DumpFields(f) + "}" == "{" + (DumpFields(f) + "}");
    assert "{" + DumpFields(g) + "}" == "{" + (DumpFields(g) + "}");
    SplitEqual("{", "{", DumpFields(f) + "}", DumpFields(g) + "}");
    FieldsInjective(f, g, "}", "}");
  }

  // ---------------------------------------------------------------- what hashes determine

  /** The text whose digest is a transaction's hash. */
  function SignedText(c: Suite, t: Transaction): seq<int>
  {
    Codes(c.dump(SignableJson(t)))
  }

  /** The text whose digest is a block's hash. */
  function HeaderText(c: Suite, b: Block): seq<int>
  {
    Codes(c.dump(HeaderJson(c, b)))
  }

  /** A concrete collision among the inputs that verifying these two blocks hashes: the header texts, the
      joined transaction hashes, or the texts of two transactions in the same place. */
  ghost predicate BlockClash(c: Suite, b: Block, d: Block)
  {
    || Collision(c, HeaderText(c, b), HeaderText(c, d))
    || Collision(c, JoinHashes(b.transactions), JoinHashes(d.transactions))
    || TransactionClash(c, b.transactions, d.transactions)
  }

  ghost predicate TransactionClash(c: Suite, xs: seq<Transaction>, ys: seq<Transaction>)
  {
    exists i :: 0 <= i < |xs| && i < |ys| && Collision(c, SignedText(c, xs[i]), SignedText(c, ys[i]))
  }

  /** A concrete collision among the inputs hashed for a block of one chain and a block of the other. */
  ghost predicate ChainClash(c: Suite, xs: seq<Block>, ys: seq<Block>)
  {
    exists i, j :: 0 <= i < |xs| && 0 <= j < |ys| && BlockClash(c, xs[i], ys[j])
  }

  ghost predicate SameTransaction(t: Transaction, u: Transaction)
  {
    t.(signature := []) == u.(signature := [])
  }

  ghost predicate SameTransactions(xs: seq<Transaction>, ys: seq<Transaction>)
  {
    |xs| == |ys| && forall i :: 0 <= i < |xs| ==> SameTransaction(xs[i], ys[i])
  }

  /** Equal in everything except the signatures. */
  ghost predicate SameBlock(b: Block, d: Block)
  {
    && b.(signature := [], transactions := []) == d.(signature := [], transactions := [])
    && SameTransactions(b.transactions, d.transactions)
  }

  lemma SignableShape(t: Transaction, u: Transaction)
    ensures SameShape(SignableJson(t).fields, SignableJson(u).fields)
  {
    var f, g := SignableJson(t).fields, SignableJson(u).fields;
    assert SameShape(f.rest.rest.rest.rest, g.rest.rest.rest.rest);
    assert SameShape(f.rest.rest, g.rest.rest);
  }

  lemma HeaderShape(c: Suite, b: Block, d: Block)
    ensures SameShape(HeaderJson(c, b).fields, HeaderJson(c, d).fields)
  {
    var f, g := HeaderJson(c, b).fields, HeaderJson(c, d).fields;
    assert SameShape(f.rest.rest.rest.rest, g.rest.rest.rest.rest);
    assert SameShape(f.rest.rest, g.rest.rest);
  }

  lemma TransactionCommitment(c: Suite, t: Transaction, u: Transaction)
    requires PrintsCompactly(c) && !Collision(c, SignedText(c, t), SignedText(c, u))
    requires VerifyTransaction(c, t) && VerifyTransaction(c, u) && t.hash == u.hash
    ensures SameTransaction(t, u)
  {
    CodesInjective(c.dump(SignableJson(t)), c.dump(SignableJson(u)));
    SignableShape(t, u);
    ObjectsInjective(SignableJson(t).fields, SignableJson(u).fields);
    HexInjective(t.sender, u.sender);
    HexInjective(t.recipient, u.recipient);
    HexInjective(t.senderPublicKey, u.senderPublicKey);
  }

  lemma {:induction false} JoinInjective(xs: seq<Transaction>, ys: seq<Transaction>)
    requires JoinHashes(xs) == JoinHashes(ys)
    ensures |xs| == |ys|
    ensures forall i :: 0 <= i < |xs| ==> xs[i].hash == ys[i].hash
  {
    if xs != [] {
      var m, n := |xs| - 1, |ys| - 1;
      var p, q := JoinHashes(xs[..m]), JoinHashes(ys[..n]);
      assert JoinHashes(xs) == p + xs[m].hash && JoinHashes(ys) == q + ys[n].hash;
      assert |p| == |q|;
      assert p == JoinHashes(xs)[..|p|] && q == JoinHashes(ys)[..|q|];
      assert xs[m].hash == JoinHashes(xs)[|p|..] && ys[n].hash == JoinHashes(ys)[|q|..];
      JoinInjective(xs[..m], ys[..n]);
      forall i | 0 <= i < |xs| ensures xs[i].hash == ys[i].hash {
        assert i < m ==> xs[..m][i].hash == ys[..n][i].hash;
      }
    }
  }

  lemma RootCommitment(c: Suite, xs: seq<Transaction>, ys: seq<Transaction>)
    requires PrintsCompactly(c) && VerifyEach(c, xs) && VerifyEach(c, ys) && RootHash(c, xs) == RootHash(c, ys)
    requires !Collision(c, JoinHashes(xs), JoinHashes(ys)) && !TransactionClash(c, xs, ys)
    ensures SameTransactions(xs, ys)
  {
    JoinInjective(xs, ys);
    VerifyEachMeans(c, xs);
    VerifyEachMeans(c, ys);
    forall i | 0 <= i < |xs| ensures SameTransaction(xs[i], ys[i]) {
      assert xs[i] in xs && ys[i] in ys;
      TransactionCommitment(c, xs[i], ys[i]);
    }
  }

  lemma HeaderCommitment(c: Suite, b: Block, d: Block)
    requires PrintsCompactly(c) && BlockHash(c, b) == BlockHash(c, d)
    requires !Collision(c, HeaderText(c, b), HeaderText(c, d))
    ensures b.index == d.index && b.timestamp == d.timestamp && b.previousHash == d.previousHash
    ensures b.validator == d.validator && b.validatorPublicKey == d.validatorPublicKey
    ensures RootHash(c, b.transactions) == RootHash(c, d.transactions)
  {
    CodesInjective(c.dump(HeaderJson(c, b)), c.dump(HeaderJson(c, d)));
    HeaderShape(c, b, d);
    ObjectsInjective(HeaderJson(c, b).fields, HeaderJson(c, d).fields);
    HexInjective(b.previousHash, d.previousHash);
    HexInjective(RootHash(c, b.transactions), RootHash(c, d.transactions));
    HexInjective(b.validator, d.validator);
    HexInjective(b.validatorPublicKey, d.validatorPublicKey);
  }

  lemma BlockCommitment(c: Suite, b: Block, d: Block)
    requires PrintsCompactly(c) && !BlockClash(c, b, d)
    requires VerifyBlock(c, b) && VerifyBlock(c, d) && b.hash == d.hash
    ensures SameBlock(b, d)
  {
    HeaderCommitment(c, b, d);
    RootCommitment(c, b.transactions, d.transactions);
  }

  lemma {:induction false} SameTransactionsApplyAlike(s: Accounts, xs: seq<Transaction>, ys: seq<Transaction>)
    requires SameTransactions(xs, ys)
    ensures ApplyAll(s, xs) == ApplyAll(s, ys)
  {
    if xs != [] {
      var n := |xs| - 1;
      SameTransactionsApplyAlike(s, xs[..n], ys[..n]);
      assert SameTransaction(xs[n], ys[n]);
    }
  }

  ghost predicate SameChain(xs: seq<Block>, ys: seq<Block>)
  {
    |xs| == |ys| && forall i :: 0 <= i < |xs| ==> SameBlock(xs[i], ys[i])
  }

  lemma {:induction false} SameChainsReplayAlike(s: Accounts, xs: seq<Block>, ys: seq<Block>)
    requires SameChain(xs, ys)
    ensures Replay(s, xs) == Replay(s, ys)
  {
    if |xs| > 1 {
      var n := |xs| - 1;
      SameChainsReplayAlike(s, xs[..n], ys[..n]);
      assert SameBlock(xs[n], ys[n]);
      SameTransactionsApplyAlike(Replay(s, xs[..n]), xs[n].transactions, ys[n].transactions);
    }
  }

  /** The tips are equal, so everything behind them is. */
  lemma {:induction false} TipDeterminesChain(c: Suite, xs: seq<Block>, ys: seq<Block>)
    requires PrintsCompactly(c) && !ChainClash(c, xs, ys)
    requires Consistent(c, xs) && Consistent(c, ys) && xs[|xs| - 1].hash == ys[|ys| - 1].hash
    ensures SameChain(xs, ys)
    decreases |xs|
  {
    hide PrintsCompactly, VerifyBlock, BlockClash;
    var m, n := |xs| - 1, |ys| - 1;
    assert LinkedAt(c, xs, m) && LinkedAt(c, ys, n);
    BlockCommitment(c, xs[m], ys[n]);
    if m > 0 {
      ConsistentPrefix(c, xs, m);
      ConsistentPrefix(c, ys, m);
      if ChainClash(c, xs[..m], ys[..m]) {
        ClashSpreads(c, xs, ys, m);
      }
      TipDeterminesChain(c, xs[..m], ys[..m]);
      forall i | 0 <= i < m ensures SameBlock(xs[i], ys[i]) {
        assert SameBlock(xs[..m][i], ys[..m][i]);
      }
    }
  }

  lemma ClashSpreads(c: Suite, xs: seq<Block>, ys: seq<Block>, k: nat)
    requires k <= |xs| && k <= |ys| && ChainClash(c, xs[..k], ys[..k])
    ensures ChainClash(c, xs, ys)
  {
    hide BlockClash;
    var i, j :| 0 <= i < k && 0 <= j < k && BlockClash(c, xs[..k][i], ys[..k][j]);
    assert BlockClash(c, xs[i], ys[j]);
  }

  lemma ConsistentPrefix(c: Suite, chain: seq<Block>, k: nat)
    requires Consistent(c, chain) && 1 <= k <= |chain|
    ensures Consistent(c, chain[..k])
  {
    hide VerifyBlock;
    forall i | 0 <= i < k ensures LinkedAt(c, chain[..k], i) {
      assert LinkedAt(c, chain, i);
    }
  }

  /** Hash commitment: two chains that both pass validateChain with the same tip hash have the same
      length, agree on every field of every block and transaction except signatures, and replay to the
      same state - or two distinct inputs that were hashed for these very chains have the same digest. */
  lemma {:induction false} ChainCommitment(c: Suite, s: Accounts, xs: seq<Block>, ys: seq<Block>)
    requires PrintsCompactly(c)
    requires Consistent(c, xs) && Consistent(c, ys) && xs[|xs| - 1].hash == ys[|ys| - 1].hash
    ensures ChainClash(c, xs, ys) || (SameChain(xs, ys) && Replay(s, xs) == Replay(s, ys))
  {
    if !ChainClash(c, xs, ys) {
      TipDeterminesChain(c, xs, ys);
      SameChainsReplayAlike(s, xs, ys);
    }
  }
}

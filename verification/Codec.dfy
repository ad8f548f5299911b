/** Hex and JSON encodings of transactions, blocks and messages, and their decoders
    (src/crypto/hash.cpp, include/titancore/crypto/hash.hpp, src/core/transaction.cpp,
    src/core/block.cpp, src/net/message.cpp). */
module Codec {
  import opened Common
  import opened Text
  import opened Numerals
  import opened Records
  import opened Nodes

  // ---------------------------------------------------------------- hexadecimal

  method ToHex(data: seq<Byte>) returns (hex: string)
    ensures hex == Hex(data)
  {
    hex := "";
    for i := 0 to |data|
      invariant hex == Hex(data[..i])
    {
      assert data[..i + 1][..i] == data[..i];
      hex := hex + [HexDigit(data[i] / 16)];
      hex := hex + [HexDigit(data[i] % 16)];
    }
    assert data[..|data|] == data;
  }

  predicate IsSpace(ch: char)
  {
    ch == ' ' || '\t' <= ch <= '\r'
  }

  /** std::stoul of a two-character string in base 16, cast to a byte: leading space or sign is
      skipped, and reading stops at the first character that is no digit. */
  function ParsePair(first: char, second: char): Option<Byte>
  {
    match (Nibble(first), Nibble(second))
    case (Some(high), Some(low)) => Some(16 * high + low)
    case (Some(high), None) => Some(high)
    case (None, Some(low)) =>
      if IsSpace(first) || first == '+' then Some(low)
      else if first == '-' then Some((256 - low) % 256)
      else None
    case (None, None) => None
  }

  function ParsePairs(hex: string): Option<seq<Byte>>
    requires |hex| % 2 == 0
  {
    if hex == "" then Some([])
    else
      var n := |hex| - 2;
      match (ParsePairs(hex[..n]), ParsePair(hex[n], hex[n + 1]))
      case (Some(bytes), Some(b)) => Some(bytes + [b])
      case _ => None
  }

  /** What fromHex returns: nothing at all when the text is not acceptable. */
  function Bytes(hex: string): seq<Byte>
  {
    if |hex| % 2 != 0 || ParsePairs(hex) == None then [] else ParsePairs(hex).value
  }

  lemma {:induction false} NoneSpreads(hex: string, k: nat)
    requires |hex| % 2 == 0 && k % 2 == 0 && k <= |hex| && ParsePairs(hex[..k]) == None
    ensures ParsePairs(hex) == None
    decreases |hex|
  {
    if k == |hex| {
      assert hex[..k] == hex;
    } else {
      var n := |hex| - 2;
      assert hex[..n][..k] == hex[..k];
      NoneSpreads(hex[..n], k);
    }
  }

  method FromHex(hex: string) returns (result: seq<Byte>)
    ensures result == Bytes(hex)
  {
    if |hex| % 2 != 0 {
      return [];
    }
    result := [];
    var i := 0;
    while i < |hex|
      invariant i <= |hex| && i % 2 == 0
      invariant ParsePairs(hex[..i]) == Some(result)
    {
      assert hex[..i + 2][..i] == hex[..i];
      var b := ParsePair(hex[i], hex[i + 1]);
      if b == None {
        NoneSpreads(hex, i + 2);
        return [];
      }
      result := result + [b.value];
      i := i + 2;
    }
    assert hex[..|hex|] == hex;
  }

  lemma {:induction false} PairParses(b: Byte)
    ensures ParsePair(HexDigit(b / 16), HexDigit(b % 16)) == Some(b)
  {
    NibbleOfDigit(b / 16);
    NibbleOfDigit(b % 16);
  }

  lemma {:induction false} HexParses(data: seq<Byte>)
    ensures ParsePairs(Hex(data)) == Some(data)
  {
    hide HexDigit, ParsePair;
    if data != [] {
      var n := |data| - 1;
      HexParses(data[..n]);
      assert Hex(data)[..2 * n] == Hex(data[..n]);
      PairParses(data[n]);
      assert data == data[..n] + [data[n]];
    }
  }

  /** fromHex undoes toHex. */
  lemma {:induction false} HexRoundTrip(data: seq<Byte>)
    ensures Bytes(Hex(data)) == data
  {
    hide Hex, ParsePairs;
    HexParses(data);
  }

  /** Text that toHex could have written. */
  predicate Canonical(hex: string)
  {
    |hex| % 2 == 0 && forall i :: 0 <= i < |hex| ==> hex[i] in HEX_DIGITS
  }

  lemma DigitOfNibble(ch: char)
    requires ch in HEX_DIGITS
    ensures Nibble(ch).Some? && 0 <= Nibble(ch).value < 16 && HexDigit(Nibble(ch).value) == ch
  {
    var n :| 0 <= n < 16 && HEX_DIGITS[n] == ch;
    NibbleOfDigit(n);
  }

  lemma {:induction false} PairOfDigits(first: char, second: char)
    requires first in HEX_DIGITS && second in HEX_DIGITS
    ensures ParsePair(first, second).Some?
    ensures HexDigit(ParsePair(first, second).value / 16) == first
    ensures HexDigit(ParsePair(first, second).value % 16) == second
  {
    hide Nibble, HexDigit;
    DigitOfNibble(first);
    DigitOfNibble(second);
    assert ParsePair(first, second) == Some(16 * Nibble(first).value + Nibble(second).value);
  }

  lemma DigitsAreHex(n: int)
    requires 0 <= n < 16
    ensures HexDigit(n) in HEX_DIGITS
  {
  }

  lemma {:induction false} HexIsCanonical(data: seq<Byte>)
    ensures Canonical(Hex(data))
  {
    hide HexDigit;
    if data != [] {
      var b := data[|data| - 1];
      DigitsAreHex(b / 16);
      DigitsAreHex(b % 16);
      HexIsCanonical(data[..|data| - 1]);
    }
  }

  lemma HexAppend(data: seq<Byte>, b: Byte)
    ensures Hex(data + [b]) == Hex(data) + [HexDigit(b / 16), HexDigit(b % 16)]
  {
    assert (data + [b])[..|data + [b]| - 1] == data && (data + [b])[|data|] == b;
  }

  lemma SplitPair(hex: string)
    requires |hex| >= 2
    ensures hex == hex[..|hex| - 2] + [hex[|hex| - 2], hex[|hex| - 1]]
  {
  }

  lemma {:induction false} CanonicalParses(hex: string)
    requires Canonical(hex)
    ensures ParsePairs(hex).Some? && Hex(ParsePairs(hex).value) == hex
  {
    hide HexDigit, ParsePair;
    if hex != "" {
      var n := |hex| - 2;
      CanonicalParses(hex[..n]);
      PairOfDigits(hex[n], hex[n + 1]);
      var bytes := ParsePairs(hex[..n]).value;
      var b := ParsePair(hex[n], hex[n + 1]).value;
      HexAppend(bytes, b);
      SplitPair(hex);
    }
  }

  /** The decoder is lenient: toHex undoes fromHex exactly on lower-case text of even length. */
  lemma TextRoundTrip(hex: string)
    ensures Hex(Bytes(hex)) == hex <==> Canonical(hex)
  {
    HexIsCanonical(Bytes(hex));
    if Canonical(hex) {
      CanonicalParses(hex);
    }
  }

  /** What the lenient decoder makes of a pair: reading stops at the first character that is no digit; a
      leading space or sign is skipped, a minus counting down from 256; and a pair without any digit to read is
      refused. */
  lemma LenientPairs(d: char, other: char)
    requires Nibble(d).Some? && Nibble(other) == None
    ensures Bytes([d, other]) == [Nibble(d).value]
    ensures other == '-' ==> Bytes([other, d]) == [(256 - Nibble(d).value) % 256]
    ensures other == '+' || other == ' ' || '\t' <= other <= '\r' ==> Bytes([other, d]) == [Nibble(d).value]
    ensures !(other == '-' || other == '+' || other == ' ' || '\t' <= other <= '\r') ==> Bytes([other, d]) == []
    ensures Bytes([other, other]) == []
  {
    assert [d, other][..0] == "" && [other, d][..0] == "" && [other, other][..0] == "";
    assert ParsePair([d, other][0], [d, other][1]) == Some(Nibble(d).value);
    assert ParsePairs([d, other]) == Some([] + [Nibble(d).value]);
  }

  /** "1g" reads as 0x01, "-1" as 0xff, and "AB" as 0xab. */
  lemma LenientExamples()
    ensures Bytes("1g") == [0x01] && Bytes("-1") == [0xff] && Bytes("AB") == [0xab] && Bytes("g1") == []
  {
    assert "1g"[..0] == "" && "-1"[..0] == "" && "AB"[..0] == "" && "g1"[..0] == "";
  }

  // ---------------------------------------------------------------- JSON access

  datatype Error = NoSuchKey | WrongType | WrongLength | UnknownType

  datatype Result<+T> = Ok(value: T) | Err(error: Error)
  {
    predicate IsFailure() { Err? }

    function PropagateFailure<U>(): Result<U>
      requires Err?
    {
      Err(error)
    }

    function Extract(): T
      requires Ok?
    {
      value
    }
  }

  /** Hex text of exactly so many bytes. */
  function FromHexFixed(hex: string, size: nat): (r: Result<seq<Byte>>)
    ensures r.Ok? ==> |r.value| == size
  {
    if |Bytes(hex)| == size then Ok(Bytes(hex)) else Err(WrongLength)
  }

  /** Fixed-size decoding undoes encoding exactly for values of the requested size, and throws otherwise. */
  lemma FixedRoundTrip(data: seq<Byte>, size: nat)
    ensures FromHexFixed(Hex(data), size) == if |data| == size then Ok(data) else Err(WrongLength)
  {
    hide Hex, Bytes;
    HexRoundTrip(data);
  }

  function Lookup(f: Fields, key: Key): Result<Json>
  {
    match f
    case End => Err(NoSuchKey)
    case Field(k, value, rest) => if k == key then Ok(value) else Lookup(rest, key)
  }

  lemma LookupRest(f: Fields)
    requires f.Field?
    ensures Lookup(f, f.key) == Ok(f.value)
    ensures forall k :: k != f.key ==> Lookup(f, k) == Lookup(f.rest, k)
  {
  }

  /** j.at(key) */
  function At(j: Json, key: Key): Result<Json>
  {
    if j.Object? then Lookup(j.fields, key) else Err(WrongType)
  }

  function StringAt(j: Json, key: Key): Result<string>
  {
    var v :- At(j, key);
    if v.Str? then Ok(v.text) else Err(WrongType)
  }

  function WordAt(j: Json, key: Key): Result<U64>
  {
    var v :- At(j, key);
    if v.Number? && v.n < WORD then Ok(v.n) else Err(WrongType)
  }

  function IndexAt(j: Json, key: Key): Result<nat>
  {
    var v :- At(j, key);
    if v.Number? then Ok(v.n) else Err(WrongType)
  }

  function BytesAt(j: Json, key: Key, size: nat): (r: Result<seq<Byte>>)
    ensures r.Ok? ==> |r.value| == size
  {
    var hex :- StringAt(j, key);
    FromHexFixed(hex, size)
  }

  /** What a range-based for loop visits. */
  function Elements(j: Json): seq<Json>
  {
    match j
    case Array(items) => items
    case Object(fields) => Values(fields)
    case Number(_) => [j]
    case Str(_) => [j]
  }

  function Values(f: Fields): seq<Json>
  {
    match f
    case End => []
    case Field(_, value, rest) => [value] + Values(rest)
  }

  // ---------------------------------------------------------------- transactions and blocks

  function TransactionJson(tx: Transaction): Json
  {
    Object(
      Field(AmountKey, Number(tx.amount),
      Field(HashKey, Str(Hex(tx.hash)),
      Field(NonceKey, Number(tx.nonce),
      Field(RecipientKey, Str(Hex(tx.recipient)),
      Field(SenderKey, Str(Hex(tx.sender)),
      Field(SenderPublicKeyKey, Str(Hex(tx.senderPublicKey)),
      Field(SignatureKey, Str(Hex(tx.signature)),
      Field(TimestampKey, Number(tx.timestamp), End)))))))))
  }

  function TransactionFromJson(j: Json): Result<Transaction>
  {
    var sender :- BytesAt(j, SenderKey, 20);
    var recipient :- BytesAt(j, RecipientKey, 20);
    var senderPublicKey :- BytesAt(j, SenderPublicKeyKey, 33);
    var amount :- WordAt(j, AmountKey);
    var nonce :- WordAt(j, NonceKey);
    var timestamp :- WordAt(j, TimestampKey);
    var signature :- StringAt(j, SignatureKey);
    var hash :- BytesAt(j, HashKey, 32);
    Ok(Transaction(sender, recipient, amount, nonce, timestamp, senderPublicKey, Bytes(signature), hash))
  }

  function TransactionsJson(txs: seq<Transaction>): (r: seq<Json>)
    ensures |r| == |txs|
  {
    seq(|txs|, i requires 0 <= i < |txs| => TransactionJson(txs[i]))
  }

  function BlockJson(b: Block): Json
  {
    Object(
      Field(HashKey, Str(Hex(b.hash)),
      Field(IndexKey, Number(b.index),
      Field(PreviousHashKey, Str(Hex(b.previousHash)),
      Field(SignatureKey, Str(Hex(b.signature)),
      Field(TimestampKey, Number(b.timestamp),
      Field(TransactionsKey, Array(TransactionsJson(b.transactions)),
      Field(ValidatorKey, Str(Hex(b.validator)),
      Field(ValidatorPublicKeyKey, Str(Hex(b.validatorPublicKey)), End)))))))))
  }

  function DecodeTransactions(items: seq<Json>): Result<seq<Transaction>>
  {
    if items == [] then Ok([])
    else
      var first :- DecodeTransactions(items[..|items| - 1]);
      var last :- TransactionFromJson(items[|items| - 1]);
      Ok(first + [last])
  }

  function BlockFromJson(j: Json): Result<Block>
  {
    var index :- IndexAt(j, IndexKey);
    var timestamp :- WordAt(j, TimestampKey);
    var previousHash :- BytesAt(j, PreviousHashKey, 32);
    var validator :- BytesAt(j, ValidatorKey, 20);
    var validatorPublicKey :- BytesAt(j, ValidatorPublicKeyKey, 33);
    var signature :- StringAt(j, SignatureKey);
    var hash :- BytesAt(j, HashKey, 32);
    var list :- At(j, TransactionsKey);
    var transactions :- DecodeTransactions(Elements(list));
    Ok(Block(index, timestamp, previousHash, validator, validatorPublicKey, transactions,
             Bytes(signature), hash))
  }

  lemma TransactionFields(tx: Transaction)
    ensures At(TransactionJson(tx), AmountKey) == Ok(Number(tx.amount))
    ensures At(TransactionJson(tx), HashKey) == Ok(Str(Hex(tx.hash)))
    ensures At(TransactionJson(tx), NonceKey) == Ok(Number(tx.nonce))
    ensures At(TransactionJson(tx), RecipientKey) == Ok(Str(Hex(tx.recipient)))
    ensures At(TransactionJson(tx), SenderKey) == Ok(Str(Hex(tx.sender)))
    ensures At(TransactionJson(tx), SenderPublicKeyKey) == Ok(Str(Hex(tx.senderPublicKey)))
    ensures At(TransactionJson(tx), SignatureKey) == Ok(Str(Hex(tx.signature)))
    ensures At(TransactionJson(tx), TimestampKey) == Ok(Number(tx.timestamp))
  {
    hide Lookup, Hex;
    var f := TransactionJson(tx).fields;
    LookupRest(f);
    LookupRest(f.rest);
    LookupRest(f.rest.rest);
    LookupRest(f.rest.rest.rest);
    LookupRest(f.rest.rest.rest.rest);
    LookupRest(f.rest.rest.rest.rest.rest);
    LookupRest(f.rest.rest.rest.rest.rest.rest);
    LookupRest(f.rest.rest.rest.rest.rest.rest.rest);
  }

  /** Decoding an encoded transaction gives it back, signature and hash included. */
  lemma {:induction false} TransactionRoundTrip(tx: Transaction)
    ensures TransactionFromJson(TransactionJson(tx)) == Ok(tx)
  {
    hide Hex, Bytes, At, TransactionJson;
    TransactionFields(tx);
    HexRoundTrip(tx.sender);
    HexRoundTrip(tx.recipient);
    HexRoundTrip(tx.senderPublicKey);
    HexRoundTrip(tx.signature);
    HexRoundTrip(tx.hash);
  }

  lemma {:induction false} TransactionsRoundTrip(txs: seq<Transaction>)
    ensures DecodeTransactions(TransactionsJson(txs)) == Ok(txs)
  {
    if txs != [] {
      var n := |txs| - 1;
      assert TransactionsJson(txs)[..n] == TransactionsJson(txs[..n]);
      TransactionsRoundTrip(txs[..n]);
      TransactionRoundTrip(txs[n]);
      assert txs == txs[..n] + [txs[n]];
    }
  }

  lemma BlockFields(b: Block)
    ensures At(BlockJson(b), HashKey) == Ok(Str(Hex(b.hash)))
    ensures At(BlockJson(b), IndexKey) == Ok(Number(b.index))
    ensures At(BlockJson(b), PreviousHashKey) == Ok(Str(Hex(b.previousHash)))
    ensures At(BlockJson(b), SignatureKey) == Ok(Str(Hex(b.signature)))
    ensures At(BlockJson(b), TimestampKey) == Ok(Number(b.timestamp))
    ensures At(BlockJson(b), TransactionsKey) == Ok(Array(TransactionsJson(b.transactions)))
    ensures At(BlockJson(b), ValidatorKey) == Ok(Str(Hex(b.validator)))
    ensures At(BlockJson(b), ValidatorPublicKeyKey) == Ok(Str(Hex(b.validatorPublicKey)))
  {
    hide Lookup, Hex, TransactionsJson;
    var f := BlockJson(b).fields;
    LookupRest(f);
    LookupRest(f.rest);
    LookupRest(f.rest.rest);
    LookupRest(f.rest.rest.rest);
    LookupRest(f.rest.rest.rest.rest);
    LookupRest(f.rest.rest.rest.rest.rest);
    LookupRest(f.rest.rest.rest.rest.rest.rest);
    LookupRest(f.rest.rest.rest.rest.rest.rest.rest);
  }

  /** Decoding an encoded block gives it back: every header field, the seal, and the transactions in order. */
  lemma {:induction false} BlockRoundTrip(b: Block)
    ensures BlockFromJson(BlockJson(b)) == Ok(b)
  {
    hide Hex, Bytes, At, BlockJson, TransactionsJson, DecodeTransactions;
    BlockFields(b);
    HexRoundTrip(b.previousHash);
    HexRoundTrip(b.validator);
    HexRoundTrip(b.validatorPublicKey);
    HexRoundTrip(b.signature);
    HexRoundTrip(b.hash);
    TransactionsRoundTrip(b.transactions);
  }

  ghost predicate HasText(j: Json, key: Key)
  {
    At(j, key).Ok? && At(j, key).value.Str?
  }

  ghost predicate HasBytes(j: Json, key: Key, size: nat)
  {
    HasText(j, key) && |Bytes(At(j, key).value.text)| == size
  }

  ghost predicate HasWord(j: Json, key: Key)
  {
    At(j, key).Ok? && At(j, key).value.Number? && At(j, key).value.n < WORD
  }

  /** Exactly which values decode to a transaction - no key may be missing, and every fixed-size field must have
      its size - and to which one. */
  lemma TransactionDecodesIff(j: Json)
    ensures TransactionFromJson(j).Ok? <==>
              && HasBytes(j, SenderKey, 20) && HasBytes(j, RecipientKey, 20) && HasBytes(j, SenderPublicKeyKey, 33)
              && HasWord(j, AmountKey) && HasWord(j, NonceKey) && HasWord(j, TimestampKey)
              && HasText(j, SignatureKey) && HasBytes(j, HashKey, 32)
    ensures TransactionFromJson(j).Ok? ==>
              var tx := TransactionFromJson(j).value;
              && tx.sender == Bytes(At(j, SenderKey).value.text)
              && tx.recipient == Bytes(At(j, RecipientKey).value.text)
              && tx.senderPublicKey == Bytes(At(j, SenderPublicKeyKey).value.text)
              && tx.amount == At(j, AmountKey).value.n
              && tx.nonce == At(j, NonceKey).value.n
              && tx.timestamp == At(j, TimestampKey).value.n
              && tx.signature == Bytes(At(j, SignatureKey).value.text)
              && tx.hash == Bytes(At(j, HashKey).value.text)
  {
    hide At, Bytes;
  }

  lemma {:induction false} DecodesEach(items: seq<Json>)
    ensures DecodeTransactions(items).Ok? <==>
              forall i :: 0 <= i < |items| ==> TransactionFromJson(items[i]).Ok?
    ensures DecodeTransactions(items).Ok? ==>
              && |DecodeTransactions(items).value| == |items|
              && forall i :: 0 <= i < |items| ==>
                   TransactionFromJson(items[i]) == Ok(DecodeTransactions(items).value[i])
  {
    hide TransactionFromJson;
    if items != [] {
      var n := |items| - 1;
      DecodesEach(items[..n]);
      assert forall i :: 0 <= i < n ==> items[..n][i] == items[i];
    }
  }

  /** Exactly which values decode to a block, and to which one: a block decodes only with all its transactions. */
  lemma BlockDecodesIff(j: Json)
    ensures BlockFromJson(j).Ok? <==>
              && At(j, IndexKey).Ok? && At(j, IndexKey).value.Number? && HasWord(j, TimestampKey)
              && HasBytes(j, PreviousHashKey, 32) && HasBytes(j, ValidatorKey, 20)
              && HasBytes(j, ValidatorPublicKeyKey, 33) && HasText(j, SignatureKey) && HasBytes(j, HashKey, 32)
              && At(j, TransactionsKey).Ok?
              && forall i :: 0 <= i < |Elements(At(j, TransactionsKey).value)| ==>
                   TransactionFromJson(Elements(At(j, TransactionsKey).value)[i]).Ok?
    ensures BlockFromJson(j).Ok? ==>
              var b := BlockFromJson(j).value;
              && b.index == At(j, IndexKey).value.n
              && b.timestamp == At(j, TimestampKey).value.n
              && b.previousHash == Bytes(At(j, PreviousHashKey).value.text)
              && b.validator == Bytes(At(j, ValidatorKey).value.text)
              && b.validatorPublicKey == Bytes(At(j, ValidatorPublicKeyKey).value.text)
              && b.signature == Bytes(At(j, SignatureKey).value.text)
              && b.hash == Bytes(At(j, HashKey).value.text)
              && |b.transactions| == |Elements(At(j, TransactionsKey).value)|
              && forall i :: 0 <= i < |b.transactions| ==>
                   TransactionFromJson(Elements(At(j, TransactionsKey).value)[i]) == Ok(b.transactions[i])
  {
    hide At, Bytes, Elements, TransactionFromJson, DecodeTransactions;
    if At(j, TransactionsKey).Ok? {
      DecodesEach(Elements(At(j, TransactionsKey).value));
    }
  }

  // ---------------------------------------------------------------- messages

  function TypeName(m: Message): string
  {
    match m
    case Ping => "PING"
    case Pong => "PONG"
    case NewBlock(_) => "NEW_BLOCK"
    case NewTx(_) => "NEW_TX"
    case GetBlocks(_) => "GET_BLOCKS"
    case Blocks(_) => "BLOCKS"
  }

  function BlocksJson(blocks: seq<Block>): (r: seq<Json>)
    ensures |r| == |blocks|
  {
    seq(|blocks|, i requires 0 <= i < |blocks| => BlockJson(blocks[i]))
  }

  function Payload(m: Message): Json
  {
    match m
    case Ping => Object(End)
    case Pong => Object(End)
    case NewBlock(b) => BlockJson(b)
    case NewTx(tx) => TransactionJson(tx)
    case GetBlocks(start) => Object(Field(FromKey, Number(start), End))
    case Blocks(blocks) => Object(Field(BlocksKey, Array(BlocksJson(blocks)), End))
  }

  function MessageJson(m: Message): Json
  {
    Object(Field(PayloadKey, Payload(m), Field(TypeKey, Str(TypeName(m)), End)))
  }

  /** onBlocks decodes one block at a time and stops at the first that cannot be decoded; the ones
      before it have been handled by then. */
  function DecodablePrefix(items: seq<Json>): seq<Block>
  {
    if items == [] || BlockFromJson(items[0]).Err? then []
    else [BlockFromJson(items[0]).value] + DecodablePrefix(items[1..])
  }

  /** The message that a body makes the node handle; on an error nothing is handled. */
  function MessageFromJson(j: Json): Result<Message>
  {
    var name :- StringAt(j, TypeKey);
    var payload := if At(j, PayloadKey).Ok? then At(j, PayloadKey).value else Object(End);
    if name == "PING" then Ok(Ping)
    else if name == "PONG" then Ok(Pong)
    else if name == "NEW_BLOCK" then
      var b :- BlockFromJson(payload);
      Ok(NewBlock(b))
    else if name == "NEW_TX" then
      var tx :- TransactionFromJson(payload);
      Ok(NewTx(tx))
    else if name == "GET_BLOCKS" then
      var start :- IndexAt(payload, FromKey);
      Ok(GetBlocks(start))
    else if name == "BLOCKS" then
      var list :- At(payload, BlocksKey);
      Ok(Blocks(DecodablePrefix(Elements(list))))
    else Err(UnknownType)
  }

  lemma {:induction false} BlocksRoundTrip(blocks: seq<Block>)
    ensures DecodablePrefix(BlocksJson(blocks)) == blocks
  {
    hide BlockFromJson, BlockJson;
    if blocks != [] {
      assert BlocksJson(blocks)[1..] == BlocksJson(blocks[1..]);
      BlockRoundTrip(blocks[0]);
      BlocksRoundTrip(blocks[1..]);
    }
  }

  /** The receiving node handles exactly the message that was sent. */
  lemma MessageRoundTrip(m: Message)
    ensures MessageFromJson(MessageJson(m)) == Ok(m)
  {
    hide BlockFromJson, BlockJson, TransactionFromJson, TransactionJson, BlocksJson, DecodablePrefix;
    var f := MessageJson(m).fields;
    LookupRest(f);
    LookupRest(f.rest);
    assert "PING"[1] != "PONG"[1] && "NEW_TX"[0] != "BLOCKS"[0];
    match m
    case Ping =>
    case Pong =>
    case NewBlock(b) => BlockRoundTrip(b);
    case NewTx(tx) => TransactionRoundTrip(tx);
    case GetBlocks(start) =>
    case Blocks(blocks) => BlocksRoundTrip(blocks);
  }

  /** A BLOCKS body whose block number k is malformed acts like one cut off before k. */
  lemma {:induction false} MalformedCutsOff(items: seq<Json>, k: nat)
    requires k < |items| && BlockFromJson(items[k]).Err?
    requires forall i :: 0 <= i < k ==> BlockFromJson(items[i]).Ok?
    ensures DecodablePrefix(items) == DecodablePrefix(items[..k]) && |DecodablePrefix(items)| == k
  {
    hide BlockFromJson;
    if k > 0 {
      assert items[1..][..k - 1] == items[..k][1..];
      MalformedCutsOff(items[1..], k - 1);
    }
  }
}

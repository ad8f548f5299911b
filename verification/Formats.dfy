/** The byte-level formats, spelled out: what a program that shares the files, the wire or the hashes relies on. */
module Formats {
  import opened Common
  import opened Text
  import opened Numerals
  import opened Records
  import opened Stores
  import opened Nodes
  import opened Commitment
  import opened Codec
  import opened Wire

  // ---------------------------------------------------------------- text

  /** The value of a lower-case hexadecimal digit by its place in ASCII. */
  function Digit(ch: char): int
  {
    if ch <= '9' then ch as int - 48 else ch as int - 87
  }

  lemma DigitOf(n: int)
    requires 0 <= n < 16
    ensures Digit(HexDigit(n)) == n
  {
  }

  /** Byte i is characters 2i and 2i + 1, the more significant digit first, in ASCII digits and lower-case letters. */
  lemma {:induction false} HexMeans(data: seq<Byte>, i: nat)
    requires i < |data|
    ensures data[i] == 16 * Digit(Hex(data)[2 * i]) + Digit(Hex(data)[2 * i + 1])
  {
    hide HexDigit, Digit;
    var n := |data| - 1;
    if i < n {
      HexMeans(data[..n], i);
    } else {
      DigitOf(data[n] / 16);
      DigitOf(data[n] % 16);
    }
  }

  /** Upper-case letters read the same. */
  function Upper(s: string): string
  {
    seq(|s|, i requires 0 <= i < |s| => if 'a' <= s[i] <= 'z' then (s[i] as int - 32) as char else s[i])
  }

  lemma UpperNibble(ch: char)
    requires ch in HEX_DIGITS
    ensures Nibble(Upper([ch])[0]) == Nibble(ch)
  {
  }

  lemma UpperPieces(s: string, k: nat)
    requires k <= |s|
    ensures |Upper(s)| == |s| && Upper(s)[..k] == Upper(s[..k])
    ensures forall i :: 0 <= i < |s| ==> Upper(s)[i] == Upper([s[i]])[0]
  {
  }

  lemma UpperPair(b: Byte)
    ensures ParsePair(Upper([HexDigit(b / 16)])[0], Upper([HexDigit(b % 16)])[0]) == Some(b)
  {
    hide HexDigit, Nibble, Upper;
    DigitsAreHex(b / 16);
    DigitsAreHex(b % 16);
    UpperNibble(HexDigit(b / 16));
    UpperNibble(HexDigit(b % 16));
    PairParses(b);
  }

  lemma {:induction false} UpperParses(data: seq<Byte>)
    ensures ParsePairs(Upper(Hex(data))) == Some(data)
  {
    hide HexDigit, Upper, ParsePair;
    UpperPieces(Hex(data), 0);
    if data != [] {
      var n := |data| - 1;
      UpperParses(data[..n]);
      UpperPieces(Hex(data), 2 * n);
      assert Hex(data)[..2 * n] == Hex(data[..n]);
      UpperPair(data[n]);
      assert data == data[..n] + [data[n]];
    }
  }

  /** fromHex also undoes toHex with its letters in upper case: "AB" is 0xab. */
  lemma UpperCaseRoundTrip(data: seq<Byte>)
    ensures Bytes(Upper(Hex(data))) == data
  {
    hide Hex, Upper;
    UpperParses(data);
    UpperPieces(Hex(data), 0);
  }

  // ---------------------------------------------------------------- hashes and addresses

  /** An address is the last twenty bytes of the digest of the public key. */
  lemma AddressIsDigestTail(c: Suite, key: PublicKey, i: nat)
    requires i < 20
    ensures DeriveAddress(c, key)[i] == c.sha256(key)[12 + i]
  {
  }

  /** The transaction root is over the hashes in block order, 32 bytes each. */
  lemma {:induction false} JoinMeans(txs: seq<Transaction>, i: nat)
    requires i < |txs|
    ensures JoinHashes(txs)[32 * i..32 * i + 32] == txs[i].hash
  {
    var n := |txs| - 1;
    if i < n {
      JoinMeans(txs[..n], i);
      assert JoinHashes(txs)[32 * i..32 * i + 32] == JoinHashes(txs[..n])[32 * i..32 * i + 32];
    }
  }

  lemma FieldText(key: Key, value: Json, rest: Fields)
    requires rest.Field?
    ensures DumpFields(Field(key, value, rest))
         == "\"" + KeyName(key) + "\":" + DumpScalar(value) + "," + DumpFields(rest)
  {
    hide KeyName, DumpScalar;
    assert "\"" + KeyName(key) + "\":" + DumpScalar(value) + "," + DumpFields(rest)
        == Quoted(key) + (DumpScalar(value) + ("," + DumpFields(rest)));
  }

  lemma LastFieldText(key: Key, value: Json)
    ensures DumpFields(Field(key, value, End)) == "\"" + KeyName(key) + "\":" + DumpScalar(value)
  {
    hide KeyName, DumpScalar;
    assert "\"" + KeyName(key) + "\":" + DumpScalar(value) == Quoted(key) + (DumpScalar(value) + "");
  }

  /** A number member and a string member, followed by more. */
  function NumberMember(name: string, n: nat, more: string): string
  {
    "\"" + name + "\":" + Decimal(n) + more
  }

  function StringMember(name: string, text: string, more: string): string
  {
    "\"" + name + "\":" + ("\"" + text + "\"") + more
  }

  /** The text that is hashed for a transaction. */
  lemma SignedTextIs(tx: Transaction)
    ensures DumpFields(SignableJson(tx).fields)
         == NumberMember("amount", tx.amount, "," +
            NumberMember("nonce", tx.nonce, "," +
            StringMember("recipient", Hex(tx.recipient), "," +
            StringMember("sender", Hex(tx.sender), "," +
            StringMember("senderPublicKey", Hex(tx.senderPublicKey), "," +
            NumberMember("timestamp", tx.timestamp, ""))))))
  {
    hide DumpFields, Hex, Decimal, NumberMember, StringMember;
    var f := SignableJson(tx).fields;
    LastMember(f.rest.rest.rest.rest.rest);
    NextMember(f.rest.rest.rest.rest);
    NextMember(f.rest.rest.rest);
    NextMember(f.rest.rest);
    NextMember(f.rest);
    NextMember(f);
  }

  /** The text that is hashed for a block. */
  lemma HeaderTextIs(c: Suite, b: Block)
    ensures DumpFields(HeaderJson(c, b).fields)
         == NumberMember("index", b.index, "," +
            StringMember("previousHash", Hex(b.previousHash), "," +
            NumberMember("timestamp", b.timestamp, "," +
            StringMember("transactionRootHash", Hex(c.sha256(JoinHashes(b.transactions))), "," +
            StringMember("validator", Hex(b.validator), "," +
            StringMember("validatorPublicKey", Hex(b.validatorPublicKey), ""))))))
  {
    hide DumpFields, Hex, Decimal, JoinHashes, NumberMember, StringMember;
    var f := HeaderJson(c, b).fields;
    LastMember(f.rest.rest.rest.rest.rest);
    NextMember(f.rest.rest.rest.rest);
    NextMember(f.rest.rest.rest);
    NextMember(f.rest.rest);
    NextMember(f.rest);
    NextMember(f);
  }

  lemma NextMember(f: Fields)
    requires f.Field? && f.rest.Field?
    ensures f.value.Number? ==> DumpFields(f) == NumberMember(KeyName(f.key), f.value.n, "," + DumpFields(f.rest))
    ensures f.value.Str? ==> DumpFields(f) == StringMember(KeyName(f.key), f.value.text, "," + DumpFields(f.rest))
  {
    hide DumpFields, KeyName, Decimal;
    FieldText(f.key, f.value, f.rest);
    if f.value.Number? {
      assert DumpFields(f) == "\"" + KeyName(f.key) + "\":" + Decimal(f.value.n) + ("," + DumpFields(f.rest));
    } else if f.value.Str? {
      var quoted := "\"" + f.value.text + "\"";
      assert DumpFields(f) == "\"" + KeyName(f.key) + "\":" + quoted + ("," + DumpFields(f.rest));
    }
  }

  lemma LastMember(f: Fields)
    requires f.Field? && f.rest.End?
    ensures f.value.Number? ==> DumpFields(f) == NumberMember(KeyName(f.key), f.value.n, "")
    ensures f.value.Str? ==> DumpFields(f) == StringMember(KeyName(f.key), f.value.text, "")
  {
    hide DumpFields, KeyName, Decimal;
    LastFieldText(f.key, f.value);
  }

  // ---------------------------------------------------------------- storage keys

  /** Block keys are "b:" and the index in decimal, at least eight digits; hash and account keys are "h:" and
      "a:" and the bytes in hexadecimal; the height is under "m:height". */
  lemma KeysAre(i: nat, h: Hash, a: Address)
    ensures BlockKey(i)[..2] == "b:" && |BlockKey(i)| >= 10 && Numerals.Value(BlockKey(i)[2..]) == i
    ensures forall k :: 2 <= k < |BlockKey(i)| ==> '0' <= BlockKey(i)[k] <= '9'
    ensures HashKeyOf(h) == "h:" + Hex(h) && AccountKey(a) == "a:" + Hex(a) && HEIGHT_KEY == "m:height"
  {
    hide Decimal, Hex;
    DecimalValue(i);
    ZerosValue(if |Decimal(i)| < 8 then 8 - |Decimal(i)| else 0, Decimal(i));
    assert BlockKey(i)[2..] == PadIndex(i);
    forall k | 2 <= k < |BlockKey(i)| ensures '0' <= BlockKey(i)[k] <= '9' {
      assert BlockKey(i)[k] == PadIndex(i)[k - 2];
      PadDigit(i, k - 2);
    }
  }

  lemma PadDigit(i: nat, k: nat)
    requires k < |PadIndex(i)|
    ensures '0' <= PadIndex(i)[k] <= '9'
  {
    var s := Decimal(i);
    if k >= |PadIndex(i)| - |s| {
      assert IsDigit(s[k - (|PadIndex(i)| - |s|)]);
    }
  }

  // ---------------------------------------------------------------- the wire

  /** The length prefix weighs its bytes by powers of 256, the first one least. */
  lemma PrefixIsLittleEndian(n: nat)
    requires n < 4294967296
    ensures var b := LengthBytes(n);
            n == b[0] as int + 256 * b[1] as int + 256 * 256 * b[2] as int + 256 * 256 * 256 * b[3] as int
  {
    LengthRoundTrip(n, [0, 0, 0, 0]);
  }

  /** Bodies of up to 16 MiB get through, and no larger ones. */
  lemma BodyLimit(body: Body)
    ensures Bodies(Frame(body)) == if |body| <= 16777216 then [body] else []
  {
    StreamOne(body);
    FramesArriveInOrder([body], Frame(body));
    assert [body][1..] == [];
  }

  lemma TypeNames(b: Block, tx: Transaction, start: nat, blocks: seq<Block>)
    ensures At(MessageJson(Ping), TypeKey) == Ok(Str("PING")) && At(MessageJson(Pong), TypeKey) == Ok(Str("PONG"))
    ensures At(MessageJson(NewBlock(b)), TypeKey) == Ok(Str("NEW_BLOCK"))
    ensures At(MessageJson(NewTx(tx)), TypeKey) == Ok(Str("NEW_TX"))
    ensures At(MessageJson(GetBlocks(start)), TypeKey) == Ok(Str("GET_BLOCKS"))
    ensures At(MessageJson(Blocks(blocks)), TypeKey) == Ok(Str("BLOCKS"))
  {
    hide Payload;
    forall m: Message ensures At(MessageJson(m), TypeKey) == Ok(Str(TypeName(m))) {
      LookupRest(MessageJson(m).fields);
    }
  }
}

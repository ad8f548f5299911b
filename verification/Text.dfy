/** Hexadecimal and decimal text, and JSON values with their keys in alphabetical order
    (src/crypto/hash.cpp, std::to_string, the JSON objects of src/core). */
module Text {
  import opened Common

  const HEX_DIGITS: string := "0123456789abcdef"

  function HexDigit(n: int): char
    requires 0 <= n < 16
  {
    HEX_DIGITS[n]
  }

  function Hex(bytes: seq<Byte>): (r: string)
    ensures |r| == 2 * |bytes|
  {
    if bytes == [] then ""
    else Hex(bytes[..|bytes| - 1]) + [HexDigit(bytes[|bytes| - 1] / 16), HexDigit(bytes[|bytes| - 1] % 16)]
  }

  predicate IsDigit(ch: char)
  {
    '0' <= ch <= '9'
  }

  /** std::to_string of an unsigned number. */
  function Decimal(n: nat): (r: string)
    ensures |r| > 0
    ensures forall i :: 0 <= i < |r| ==> IsDigit(r[i])
  {
    if n < 10 then [HEX_DIGITS[n]] else Decimal(n / 10) + [HEX_DIGITS[n % 10]]
  }

  /** The characters of a std::string as the bytes that are hashed. */
  function Codes(s: string): seq<int>
  {
    seq(|s|, i requires 0 <= i < |s| => s[i] as int)
  }

  lemma CodesInjective(s: string, t: string)
    requires Codes(s) == Codes(t)
    ensures s == t
  {
    assert |Codes(s)| == |Codes(t)|;
    forall i | 0 <= i < |s| ensures s[i] == t[i] {
      assert Codes(s)[i] == Codes(t)[i];
    }
  }

  datatype Key =
    | AmountKey | BlocksKey | FromKey | HashKey | IndexKey | NonceKey | PayloadKey | PreviousHashKey
    | RecipientKey | SenderKey | SenderPublicKeyKey | SignatureKey | TimestampKey
    | TransactionRootHashKey | TransactionsKey | TypeKey | ValidatorKey | ValidatorPublicKeyKey

  datatype Json =
    | Number(n: nat)
    | Str(text: string)
    | Array(items: seq<Json>)
    | Object(fields: Fields)

  /** The members of an object, in key order. */
  datatype Fields = End | Field(key: Key, value: Json, rest: Fields)
}

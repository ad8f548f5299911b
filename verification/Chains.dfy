/** The append-only chain and its round-robin producers (src/core/blockchain.cpp, src/core/consensus.cpp). */
module Chains {
  import opened Common
  import opened Records

  /** A proof-of-authority schedule, or none: the two constructors of Blockchain. */
  type Consensus = Option<seq<Address>>

  ghost predicate Usable(consensus: Consensus)
  {
    consensus.Some? ==> consensus.value != []
  }

  function Producer(authorities: seq<Address>, index: nat): Address
    requires authorities != []
  {
    authorities[index % |authorities|]
  }

  /** PoAConsensus::validateBlock. */
  predicate Scheduled(consensus: Consensus, b: Block)
    requires Usable(consensus)
  {
    consensus.Some? ==> b.validator == Producer(consensus.value, b.index)
  }

  /** A block that could stand somewhere in a chain, whatever the other blocks. */
  predicate Acceptable(c: Suite, consensus: Consensus, b: Block)
    requires Usable(consensus)
  {
    VerifyBlock(c, b) && Scheduled(consensus, b)
  }

  /** The four checks of addBlock. */
  predicate Extends(c: Suite, consensus: Consensus, chain: seq<Block>, b: Block)
    requires chain != [] && Usable(consensus)
  {
    && b.index == |chain|
    && b.previousHash == chain[|chain| - 1].hash
    && Acceptable(c, consensus, b)
  }

  function Append(c: Suite, consensus: Consensus, chain: seq<Block>, b: Block): (r: seq<Block>)
    requires chain != [] && Usable(consensus)
    ensures r != []
  {
    if Extends(c, consensus, chain, b) then chain + [b] else chain
  }

  function AppendAll(c: Suite, consensus: Consensus, chain: seq<Block>, blocks: seq<Block>): (r: seq<Block>)
    requires chain != [] && Usable(consensus)
    ensures r != []
  {
    if blocks == [] then chain
    else
      var n := |blocks| - 1;
      Append(c, consensus, AppendAll(c, consensus, chain, blocks[..n]), blocks[n])
  }

  /** What validateChain checks of block i. */
  predicate LinkedAt(c: Suite, chain: seq<Block>, i: nat)
    requires i < |chain|
  {
    && chain[i].index == i
    && chain[i].previousHash == (if i == 0 then ZeroHash() else chain[i - 1].hash)
    && VerifyBlock(c, chain[i])
  }

  ghost predicate Consistent(c: Suite, chain: seq<Block>)
  {
    chain != [] && forall i :: 0 <= i < |chain| ==> LinkedAt(c, chain, i)
  }

  /** Consistent, and every block after genesis is by the scheduled authority. */
  ghost predicate ValidChain(c: Suite, consensus: Consensus, chain: seq<Block>)
    requires Usable(consensus)
  {
    Consistent(c, chain) && forall i :: 1 <= i < |chain| ==> Scheduled(consensus, chain[i])
  }

  lemma GenesisIsValid(c: Suite, consensus: Consensus, keys: KeyPair)
    requires Usable(consensus) && SignsFor(c, keys)
    ensures ValidChain(c, consensus, [CreateGenesisBlock(c, keys)])
  {
    CreatedBlocksVerify(c, keys, CreateGenesisBlock(c, keys), [], 0);
  }

  lemma AppendKeepsValid(c: Suite, consensus: Consensus, chain: seq<Block>, b: Block)
    requires Usable(consensus) && ValidChain(c, consensus, chain)
    ensures ValidChain(c, consensus, Append(c, consensus, chain, b))
  {
    hide VerifyBlock;
    var after := Append(c, consensus, chain, b);
    forall i | 0 <= i < |after| ensures LinkedAt(c, after, i) {
      assert i < |chain| ==> LinkedAt(c, chain, i);
    }
  }

  /** Whatever blocks are offered, accepted or rejected, validateChain stays true, each non-genesis block
      is by its scheduled authority, and the old chain is a prefix of the new one. */
  lemma {:induction false} AnyCallsKeepChainValid(c: Suite, consensus: Consensus, chain: seq<Block>, blocks: seq<Block>)
    requires Usable(consensus) && ValidChain(c, consensus, chain)
    ensures ValidChain(c, consensus, AppendAll(c, consensus, chain, blocks))
    ensures chain <= AppendAll(c, consensus, chain, blocks)
  {
    if blocks != [] {
      var n := |blocks| - 1;
      AnyCallsKeepChainValid(c, consensus, chain, blocks[..n]);
      AppendKeepsValid(c, consensus, AppendAll(c, consensus, chain, blocks[..n]), blocks[n]);
    }
  }

  /** A block made on the chain's tip by the scheduled authority passes all four checks. */
  lemma CreatedBlockExtends(c: Suite, authorities: seq<Address>, chain: seq<Block>,
                            keys: KeyPair, txs: seq<Transaction>, now: U64)
    requires authorities != [] && Consistent(c, chain) && SignsFor(c, keys)
    requires Producer(authorities, |chain|) == DeriveAddress(c, keys.publicKey)
    requires VerifyEach(c, txs)
    ensures Extends(c, Some(authorities), chain, CreateBlock(c, keys, chain[|chain| - 1], txs, now))
  {
    assert LinkedAt(c, chain, |chain| - 1);
    CreatedBlocksVerify(c, keys, chain[|chain| - 1], txs, now);
  }

  predicate HasHash(txs: seq<Transaction>, hash: Hash)
  {
    exists t :: t in txs && t.hash == hash
  }

  /** None of the first k blocks holds a transaction with this hash. */
  predicate AbsentBefore(chain: seq<Block>, hash: Hash, k: nat)
    requires k <= |chain|
  {
    forall i :: 0 <= i < k ==> !HasHash(chain[i].transactions, hash)
  }

  class Blockchain {
    const crypto: Suite
    const consensus: Consensus
    var chain: seq<Block>

    ghost predicate Valid()
      reads this
    {
      chain != [] && Usable(consensus)
    }

    constructor (crypto: Suite, consensus: Consensus, genesisKeys: KeyPair)
      requires Usable(consensus)
      ensures Valid() && this.crypto == crypto && this.consensus == consensus
      ensures chain == [CreateGenesisBlock(crypto, genesisKeys)]
      ensures chain[0].index == 0 && chain[0].timestamp == 0 && chain[0].transactions == []
      ensures forall i :: 0 <= i < 32 ==> chain[0].previousHash[i] == 0
      ensures chain[0].validator == DeriveAddress(crypto, genesisKeys.publicKey)
      ensures chain[0].validatorPublicKey == genesisKeys.publicKey
    {
      this.crypto, this.consensus := crypto, consensus;
      chain := [CreateGenesisBlock(crypto, genesisKeys)];
    }

    method AddBlock(b: Block) returns (ok: bool)
      requires Valid()
      modifies this
      ensures Valid()
      ensures ok <==> Extends(crypto, consensus, old(chain), b)
      ensures chain == Append(crypto, consensus, old(chain), b)
    {
      if b.index != |chain| || b.previousHash != chain[|chain| - 1].hash || !VerifyBlock(crypto, b) {
        return false;
      }
      if consensus.Some? && b.validator != Producer(consensus.value, b.index) {
        return false;
      }
      chain := chain + [b];
      return true;
    }

    method ValidateChain() returns (ok: bool)
      ensures ok <==> Consistent(crypto, chain)
    {
      hide VerifyBlock;
      if chain == [] {
        return false;
      }
      if !LinkedAt(crypto, chain, 0) {
        return false;
      }
      for i := 1 to |chain|
        invariant forall k :: 0 <= k < i ==> LinkedAt(crypto, chain, k)
      {
        if !LinkedAt(crypto, chain, i) {
          return false;
        }
      }
      return true;
    }

    /** The first block with this hash. */
    method FindBlockByHash(hash: Hash) returns (found: Option<Block>)
      ensures found == FirstWithHash(chain, hash)
    {
      for i := 0 to |chain|
        invariant FirstWithHash(chain, hash) == FirstWithHash(chain[i..], hash)
      {
        if chain[i].hash == hash {
          return Some(chain[i]);
        }
        assert chain[i..][1..] == chain[i + 1..];
      }
      return None;
    }

    /** The first transaction with this hash, if any. */
    method FindTransaction(hash: Hash) returns (found: Option<Transaction>)
      ensures found.Some? ==>
                (exists i, j :: 0 <= i < |chain| && 0 <= j < |chain[i].transactions|
                   && chain[i].transactions[j] == found.value && found.value.hash == hash
                   && AbsentBefore(chain, hash, i) && !HasHash(chain[i].transactions[..j], hash))
      ensures found == None ==> AbsentBefore(chain, hash, |chain|)
    {
      for i := 0 to |chain|
        invariant AbsentBefore(chain, hash, i)
      {
        var txs := chain[i].transactions;
        for j := 0 to |txs|
          invariant !HasHash(txs[..j], hash)
        {
          if txs[j].hash == hash {
            assert chain[i].transactions[j] == txs[j];
            return Some(txs[j]);
          }
          assert txs[..j + 1] == txs[..j] + [txs[j]];
        }
        assert txs[..|txs|] == txs;
      }
      return None;
    }
  }

  function FirstWithHash(chain: seq<Block>, hash: Hash): Option<Block>
  {
    if chain == [] then None
    else if chain[0].hash == hash then Some(chain[0])
    else FirstWithHash(chain[1..], hash)
  }

  lemma {:induction false} FirstWithHashMeans(chain: seq<Block>, hash: Hash)
    ensures var found := FirstWithHash(chain, hash);
            && (found == None ==> forall i :: 0 <= i < |chain| ==> chain[i].hash != hash)
            && (found.Some? ==>
                  exists i :: 0 <= i < |chain| && chain[i] == found.value && chain[i].hash == hash
                              && forall k :: 0 <= k < i ==> chain[k].hash != hash)
  {
    if chain != [] && chain[0].hash != hash {
      var rest := chain[1..];
      FirstWithHashMeans(rest, hash);
      if FirstWithHash(rest, hash).Some? {
        var i :| 0 <= i < |rest| && rest[i] == FirstWithHash(rest, hash).value && rest[i].hash == hash
                 && forall k :: 0 <= k < i ==> rest[k].hash != hash;
        assert chain[i + 1] == rest[i];
        assert forall k :: 1 <= k < i + 1 ==> chain[k] == rest[k - 1];
      } else {
        assert forall k :: 1 <= k < |chain| ==> chain[k] == rest[k - 1];
      }
    }
  }

  // ---------------------------------------------------------------- fairness of the rotation

  /** How many of the blocks 1 .. last an address produced. */
  ghost function ProducedBy(chain: seq<Block>, a: Address, last: nat): nat
    requires last < |chain|
  {
    if last == 0 then 0
    else ProducedBy(chain, a, last - 1) + if chain[last].validator == a then 1 else 0
  }

  lemma Apart(n: nat, a: nat, b: nat)
    requires a < b
    ensures n * a + n <= n * b
  {
    assert n * b == n * a + n * (b - a);
    assert n * (b - a) == n + n * (b - a - 1);
  }

  lemma {:induction false} DivisionUnique(x: nat, n: nat, q: nat, r: nat)
    requires n > 0 && r < n && x == n * q + r
    ensures x / n == q && x % n == r
  {
    assert x == n * (x / n) + x % n;
    if q < x / n {
      Apart(n, q, x / n);
    } else if x / n < q {
      Apart(n, x / n, q);
    }
  }

  lemma {:induction false} DivisionStep(x: nat, n: nat)
    requires n > 0
    ensures x % n + 1 < n ==> (x + 1) / n == x / n && (x + 1) % n == x % n + 1
    ensures x % n + 1 == n ==> (x + 1) / n == x / n + 1 && (x + 1) % n == 0
  {
    var q, r := x / n, x % n;
    assert x == n * q + r;
    if r + 1 < n {
      DivisionUnique(x + 1, n, q, r + 1);
    } else {
      assert n * (q + 1) == n * q + n;
      DivisionUnique(x + 1, n, q + 1, 0);
    }
  }

  /** The k-th of n distinct authorities has produced one block per full round, and one more if this
      round has passed it. */
  lemma {:induction false} ShareOf(c: Suite, authorities: seq<Address>, chain: seq<Block>, k: nat, last: nat)
    requires authorities != [] && ValidChain(c, Some(authorities), chain) && last < |chain|
    requires forall i, j :: 0 <= i < j < |authorities| ==> authorities[i] != authorities[j]
    requires k < |authorities|
    ensures ProducedBy(chain, authorities[k], last)
            == last / |authorities| + if 0 < k <= last % |authorities| then 1 else 0
  {
    hide VerifyBlock;
    var n := |authorities|;
    if last == 0 {
      DivisionUnique(0, n, 0, 0);
    } else {
      ShareOf(c, authorities, chain, k, last - 1);
      ShareStep(last - 1, n, k);
      ProducerOf(c, authorities, chain, k, last);
    }
  }

  /** The share grows by one exactly at the authority's turns. */
  lemma ShareStep(x: nat, n: nat, k: nat)
    requires k < n
    ensures (x + 1) / n + (if 0 < k <= (x + 1) % n then 1 else 0)
            == x / n + (if 0 < k <= x % n then 1 else 0) + (if (x + 1) % n == k then 1 else 0)
  {
    DivisionStep(x, n);
  }

  lemma ProducerOf(c: Suite, authorities: seq<Address>, chain: seq<Block>, k: nat, i: nat)
    requires authorities != [] && ValidChain(c, Some(authorities), chain) && 1 <= i < |chain|
    requires forall i, j :: 0 <= i < j < |authorities| ==> authorities[i] != authorities[j]
    requires k < |authorities|
    ensures chain[i].validator == authorities[k] <==> i % |authorities| == k
  {
    hide VerifyBlock;
    assert Scheduled(Some(authorities), chain[i]) && LinkedAt(c, chain, i);
  }

  /** Any two authorities' block counts differ by at most one. */
  lemma RotationIsFair(c: Suite, authorities: seq<Address>, chain: seq<Block>, j: nat, k: nat, last: nat)
    requires authorities != [] && ValidChain(c, Some(authorities), chain) && last < |chain|
    requires forall i, m :: 0 <= i < m < |authorities| ==> authorities[i] != authorities[m]
    requires j < |authorities| && k < |authorities|
    ensures -1 <= ProducedBy(chain, authorities[j], last) - ProducedBy(chain, authorities[k], last) <= 1
  {
    ShareOf(c, authorities, chain, j, last);
    ShareOf(c, authorities, chain, k, last);
  }
}

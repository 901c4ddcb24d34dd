/** The ledger engine: the `Blockchain` class of Chain.py. The chain is an append-only
    sequence of blocks, the pool a sequence of pending transactions; both are fields the
    methods reassign. SHA-256 over the block's JSON text (`hash`) and over the proof
    guess (`digest`) are arbitrary functions fixed at construction, so nothing proved
    here depends on what they compute. */
module Chain {
  import opened Records
  import opened ProofOfWork
  import opened Balance

  /** The genesis block's fixed `previous_hash` text and proof. */
  const GenesisPreviousHash: string := "The Times 19/May/2024 Increasing gold trading between distributions."
  const GenesisProof: int := 100

  /** The block `new_block` appends: the next index, the caller's timestamp, the whole
      pool, the caller's proof, and the supplied predecessor hash when it is truthy,
      otherwise the hash of the current last block. */
  function NextBlock(hash: Block -> string, chain: seq<Block>, pending: seq<Transaction>,
                     proof: int, previousHash: Option<string>, timestamp: real): Block
    requires Truthy(previousHash) || |chain| > 0
  {
    Block(|chain| + 1, timestamp, pending, proof,
          if Truthy(previousHash) then previousHash.value else hash(chain[|chain| - 1]))
  }

  /** Block i carries index i + 1. */
  ghost predicate Indexed(chain: seq<Block>)
  {
    forall i :: 0 <= i < |chain| ==> chain[i].index == i + 1
  }

  /** Every non-genesis block records the hash of its predecessor. */
  ghost predicate Linked(hash: Block -> string, chain: seq<Block>)
  {
    forall i :: 1 <= i < |chain| ==> chain[i].previousHash == hash(chain[i - 1])
  }

  /** Appending the next block keeps the index invariant. */
  lemma NextBlockKeepsIndexed(hash: Block -> string, chain: seq<Block>, pending: seq<Transaction>,
                              proof: int, previousHash: Option<string>, timestamp: real)
    requires Truthy(previousHash) || |chain| > 0
    requires Indexed(chain)
    ensures Indexed(chain + [NextBlock(hash, chain, pending, proof, previousHash, timestamp)])
  {
  }

  /** A chain extended by one block stays linked exactly when it was linked and the new
      block records the hash of the old last block. */
  lemma {:induction false} AppendLinkage(hash: Block -> string, chain: seq<Block>, b: Block)
    ensures Linked(hash, chain + [b]) <==>
      Linked(hash, chain) && (|chain| == 0 || b.previousHash == hash(chain[|chain| - 1]))
  {
    var c := chain + [b];
    if Linked(hash, chain) && (|chain| == 0 || b.previousHash == hash(chain[|chain| - 1])) {
      forall i | 1 <= i < |c| ensures c[i].previousHash == hash(c[i - 1]) {
        if i < |chain| {
          assert c[i] == chain[i] && c[i - 1] == chain[i - 1];
        }
      }
    }
    if Linked(hash, c) {
      forall i | 1 <= i < |chain| ensures chain[i].previousHash == hash(chain[i - 1]) {
        assert c[i] == chain[i] && c[i - 1] == chain[i - 1];
      }
      if |chain| > 0 {
        assert c[|chain|] == b && c[|chain| - 1] == chain[|chain| - 1];
      }
    }
  }

  /** Appending without a (truthy) supplied hash keeps the chain linked; `Some("")`
      behaves exactly like no argument at all. */
  lemma UnsuppliedHashLinks(hash: Block -> string, chain: seq<Block>, pending: seq<Transaction>,
                            proof: int, previousHash: Option<string>, timestamp: real)
    requires |chain| > 0 && !Truthy(previousHash)
    requires Linked(hash, chain)
    ensures NextBlock(hash, chain, pending, proof, previousHash, timestamp)
         == NextBlock(hash, chain, pending, proof, None, timestamp)
    ensures Linked(hash, chain + [NextBlock(hash, chain, pending, proof, previousHash, timestamp)])
  {
    AppendLinkage(hash, chain, NextBlock(hash, chain, pending, proof, previousHash, timestamp));
  }

  class Blockchain {
    const hash: Block -> string
    const digest: string -> string
    var chain: seq<Block>
    var pending: seq<Transaction>

    /** The object invariant: genesis exists and block i carries index i + 1. */
    ghost predicate Valid()
      reads this
    {
      |chain| >= 1 && Indexed(chain)
    }

    /** `__init__`: an empty pool and the genesis block, appended by `new_block` with the
        fixed literal as its predecessor hash and proof 100 (no proof-of-work). */
    constructor (hash: Block -> string, digest: string -> string, timestamp: real)
      ensures this.hash == hash && this.digest == digest
      ensures chain == [Block(1, timestamp, [], GenesisProof, GenesisPreviousHash)]
      ensures pending == []
      ensures Valid() && Linked(hash, chain)
    {
      this.hash := hash;
      this.digest := digest;
      chain := [];
      pending := [];
      new;
      var _ := NewBlock(GenesisProof, Some(GenesisPreviousHash), timestamp);
    }

    /** `new_block`: drains the pool into a new block, appends it and returns it. The
        proof is not checked against `valid_proof`. */
    method NewBlock(proof: int, previousHash: Option<string>, timestamp: real) returns (block: Block)
      requires Truthy(previousHash) || |chain| > 0
      modifies this
      ensures block == NextBlock(hash, old(chain), old(pending), proof, previousHash, timestamp)
      ensures chain == old(chain) + [block] && pending == []
      ensures block.index == |chain| && block.transactions == old(pending)
      ensures old(Valid()) || old(chain) == [] ==> Valid()
      ensures Linked(hash, chain) <==>
        Linked(hash, old(chain)) && (old(chain) == [] || block.previousHash == hash(old(chain)[|old(chain)| - 1]))
      ensures forall a :: BalanceOf(chain, a) == BalanceOf(old(chain), a) + TxsBalance(old(pending), a)
    {
      block := Block(|chain| + 1, timestamp, pending, proof,
                     if Truthy(previousHash) then previousHash.value else hash(chain[|chain| - 1]));
      ghost var before := chain;
      pending := [];
      chain := chain + [block];
      AppendLinkage(hash, before, block);
      forall a ensures BalanceOf(chain, a) == BalanceOf(before, a) + TxsBalance(block.transactions, a) {
        BalanceOfAppend(before, block, a);
      }
    }

    /** `last_block`: the most recently appended block; under the invariant its index
        is the chain length. */
    function LastBlock(): (b: Block)
      reads this
      requires |chain| > 0
      ensures b in chain
      ensures Valid() ==> b.index == |chain|
    {
      chain[|chain| - 1]
    }

    /** `new_transaction`: appends one record to the end of the pool, leaves the chain
        alone, and returns the index of the block that will commit the pool. */
    method NewTransaction(sender: string, recipient: string, amount: int) returns (index: int)
      requires |chain| > 0
      modifies this`pending
      ensures pending == old(pending) + [Transaction(sender, recipient, amount)]
      ensures index == chain[|chain| - 1].index + 1
      ensures old(Valid()) ==> Valid() && index == |chain| + 1
    {
      pending := pending + [Transaction(sender, recipient, amount)];
      index := LastBlock().index + 1;
    }

    /** `proof_of_work`: a linear search from 0 for a proof the digest accepts. The search
        is unbounded in the source; here a valid proof is required to exist. */
    method ProofOfWork(lastProof: int) returns (proof: nat)
      requires exists p: nat :: ValidProof(digest, lastProof, p)
      ensures ValidProof(digest, lastProof, proof)
      ensures forall q: nat :: q < proof ==> !ValidProof(digest, lastProof, q)
    {
      ghost var w: nat :| ValidProof(digest, lastProof, w);
      proof := 0;
      while !ValidProof(digest, lastProof, proof)
        invariant proof <= w
        invariant forall q: nat :: q < proof ==> !ValidProof(digest, lastProof, q)
        decreases w - proof
      {
        proof := proof + 1;
      }
    }

    /** `get_balance`: replays every committed transaction, debiting the address as
        sender and crediting it as recipient. The pool is not consulted. */
    method GetBalance(address: string) returns (balance: int)
      ensures balance == BalanceOf(chain, address)
    {
      balance := 0;
      var i := 0;
      while i < |chain|
        invariant 0 <= i <= |chain|
        invariant balance == BalanceOf(chain[..i], address)
      {
        var txs := chain[i].transactions;
        var j := 0;
        while j < |txs|
          invariant 0 <= j <= |txs|
          invariant balance == BalanceOf(chain[..i], address) + TxsBalance(txs[..j], address)
        {
          var t := txs[j];
          if t.sender == address {
            balance := balance - t.amount;
          }
          if t.recipient == address {
            balance := balance + t.amount;
          }
          assert txs[..j + 1] == txs[..j] + [t];
          TxsBalanceSnoc(txs[..j], t, address);
          j := j + 1;
        }
        assert txs[..j] == txs;
        assert chain[..i + 1] == chain[..i] + [chain[i]];
        BalanceOfAppend(chain[..i], chain[i], address);
        i := i + 1;
      }
      assert chain[..i] == chain;
    }
  }
}

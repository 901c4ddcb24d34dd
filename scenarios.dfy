/** Callers' sequences of ledger operations: the pool drain between two appends, the
    end-to-end mine-and-transfer scenario, and the overdraw that a committed-only
    balance check lets through. */
module Scenarios {
  import opened Records
  import opened Balance
  import opened Chain

  /** Transactions pooled between two appends land, in insertion order, in the later
      block only, and appends without a supplied hash keep the chain linked. */
  method PoolDrain(hash: Block -> string, digest: string -> string, t0: real, t1: real, t2: real,
                   x: Transaction, y: Transaction, z: Transaction)
    returns (first: Block, second: Block, chain: seq<Block>)
    ensures first.index == 2 && first.transactions == [x]
    ensures second.index == 3 && second.transactions == [y, z]
    ensures |chain| == 3 && chain[1] == first && chain[2] == second
    ensures Linked(hash, chain)
  {
    var ledger := new Blockchain(hash, digest, t0);
    var _ := ledger.NewTransaction(x.sender, x.recipient, x.amount);
    first := ledger.NewBlock(1, None, t1);
    var _ := ledger.NewTransaction(y.sender, y.recipient, y.amount);
    var _ := ledger.NewTransaction(z.sender, z.recipient, z.amount);
    second := ledger.NewBlock(2, None, t2);
    chain := ledger.chain;
  }

  /** A new ledger whose second block rewards A with `amount` from sender "0", as the
      mining route's reward transaction does. */
  method FundedLedger(hash: Block -> string, digest: string -> string, t0: real, t1: real, amount: int)
    returns (ledger: Blockchain)
    ensures fresh(ledger)
    ensures ledger.Valid() && |ledger.chain| == 2 && ledger.pending == []
    ensures BalanceOf(ledger.chain, "A") == amount && BalanceOf(ledger.chain, "B") == 0
  {
    ledger := new Blockchain(hash, digest, t0);
    var genesis := ledger.chain[0];
    var _ := ledger.NewTransaction("0", "A", amount);
    var funding := ledger.NewBlock(1, None, t1);
    FundedFromGenesis(genesis, funding, "A", amount, "B");
    assert ledger.chain == [genesis, funding];
  }

  /** Fund A with 50, then transfer 10 from A to B after checking A's balance, as the
      transaction route does; after mining, A holds 40 and B holds 10. */
  method EndToEnd(hash: Block -> string, digest: string -> string, t0: real, t1: real, t2: real)
    returns (length: nat, pooled: nat, balanceA: int, balanceB: int)
    ensures length == 3 && pooled == 0
    ensures balanceA == 40 && balanceB == 10
  {
    var ledger := FundedLedger(hash, digest, t0, t1, 50);
    var funds := ledger.GetBalance("A");
    if funds >= 10 {
      var _ := ledger.NewTransaction("A", "B", 10);
    }
    var funded := ledger.chain;
    var transfer := ledger.NewBlock(2, None, t2);
    CommitTransfer(funded, transfer, Transaction("A", "B", 10), "0");
    length, pooled := |ledger.chain|, |ledger.pending|;
    balanceA := ledger.GetBalance("A");
    balanceB := ledger.GetBalance("B");
  }

  /** Two transfers of 5 from A, each checked against A's committed balance of 5, are
      both accepted while pooled; once mined, A's balance is -5. */
  method PooledOverdraw(hash: Block -> string, digest: string -> string, t0: real, t1: real, t2: real)
    returns (firstAccepted: bool, secondAccepted: bool, finalBalance: int)
    ensures firstAccepted && secondAccepted
    ensures finalBalance == -5
  {
    var ledger := FundedLedger(hash, digest, t0, t1, 5);
    var funds := ledger.GetBalance("A");
    firstAccepted := funds >= 5;
    if firstAccepted {
      var _ := ledger.NewTransaction("A", "B", 5);
    }
    funds := ledger.GetBalance("A");
    secondAccepted := funds >= 5;
    if secondAccepted {
      var _ := ledger.NewTransaction("A", "B", 5);
    }
    var funded := ledger.chain;
    var overdraw := ledger.NewBlock(2, None, t2);
    TwoDebits(funded, overdraw);
    finalBalance := ledger.GetBalance("A");
  }

  /** After a block without transactions and one reward from sender "0", the rewarded
      address holds the reward and every other address except "0" holds nothing. */
  lemma FundedFromGenesis(genesis: Block, funding: Block, a: string, amount: int, c: string)
    requires genesis.transactions == []
    requires funding.transactions == [Transaction("0", a, amount)]
    requires a != "0" && c != "0" && c != a
    ensures BalanceOf([genesis, funding], a) == amount
    ensures BalanceOf([genesis, funding], c) == 0
  {
    assert [genesis, funding] == [genesis] + [funding];
    EmptyBlockBalance(genesis, a);
    EmptyBlockBalance(genesis, c);
    CommitTransfer([genesis], funding, Transaction("0", a, amount), c);
  }

  /** Committing two debits of 5 from A against a balance of 5 leaves A at -5. */
  lemma TwoDebits(c: seq<Block>, b: Block)
    requires BalanceOf(c, "A") == 5
    requires b.transactions == [Transaction("A", "B", 5), Transaction("A", "B", 5)]
    ensures BalanceOf(c + [b], "A") == -5
  {
    var t := Transaction("A", "B", 5);
    assert [t] + [t] == b.transactions;
    BalanceOfAppend(c, b, "A");
    TxsBalanceSnoc([t], t, "A");
    SingleTxBalance(t, "A");
  }
}

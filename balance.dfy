/** The balance oracle's specification: what `get_balance` computes, as sums over the
    committed transactions, and the facts about it that the ledger relies on. */
module Balance {
  import opened Records

  /** Every committed transaction, block by block in chain order. */
  function Committed(blocks: seq<Block>): seq<Transaction>
  {
    if blocks == [] then []
    else Committed(blocks[..|blocks| - 1]) + blocks[|blocks| - 1].transactions
  }

  function Incoming(t: Transaction, a: string): int
  {
    if t.recipient == a then t.amount else 0
  }

  function Outgoing(t: Transaction, a: string): int
  {
    if t.sender == a then t.amount else 0
  }

  /** Sum of `amount` over the transactions whose recipient is `a`. */
  function Received(txs: seq<Transaction>, a: string): int
  {
    if txs == [] then 0 else Received(txs[..|txs| - 1], a) + Incoming(txs[|txs| - 1], a)
  }

  /** Sum of `amount` over the transactions whose sender is `a`. */
  function Sent(txs: seq<Transaction>, a: string): int
  {
    if txs == [] then 0 else Sent(txs[..|txs| - 1], a) + Outgoing(txs[|txs| - 1], a)
  }

  /** Net effect of a run of transactions on `a`. */
  function TxsBalance(txs: seq<Transaction>, a: string): int
  {
    Received(txs, a) - Sent(txs, a)
  }

  /** The balance of `a`: received minus sent, over committed transactions only. */
  function BalanceOf(blocks: seq<Block>, a: string): int
  {
    TxsBalance(Committed(blocks), a)
  }

  /** Received and Sent are sums: they split over concatenation. */
  lemma {:induction false} SumsSplit(xs: seq<Transaction>, ys: seq<Transaction>, a: string)
    ensures Received(xs + ys, a) == Received(xs, a) + Received(ys, a)
    ensures Sent(xs + ys, a) == Sent(xs, a) + Sent(ys, a)
  {
    if ys != [] {
      var init := ys[..|ys| - 1];
      assert (xs + ys)[..|xs + ys| - 1] == xs + init;
      SumsSplit(xs, init, a);
    } else {
      assert xs + ys == xs;
    }
  }

  /** One more transaction moves `a`'s net by what it credits minus what it debits. */
  lemma TxsBalanceSnoc(txs: seq<Transaction>, t: Transaction, a: string)
    ensures TxsBalance(txs + [t], a) == TxsBalance(txs, a) + Incoming(t, a) - Outgoing(t, a)
  {
    assert (txs + [t])[..|txs|] == txs;
  }

  /** Appending a block changes every balance by exactly that block's transactions. */
  lemma BalanceOfAppend(blocks: seq<Block>, b: Block, a: string)
    ensures BalanceOf(blocks + [b], a) == BalanceOf(blocks, a) + TxsBalance(b.transactions, a)
  {
    assert (blocks + [b])[..|blocks|] == blocks;
    assert Committed(blocks + [b]) == Committed(blocks) + b.transactions;
    SumsSplit(Committed(blocks), b.transactions, a);
  }

  /** A block without transactions, such as the genesis block, credits nobody. */
  lemma EmptyBlockBalance(b: Block, a: string)
    requires b.transactions == []
    ensures BalanceOf([b], a) == 0
  {
    UntouchedAddress([b], a);
  }

  /** The net effect of a single transaction on `a`. */
  lemma SingleTxBalance(t: Transaction, a: string)
    ensures TxsBalance([t], a) == Incoming(t, a) - Outgoing(t, a)
  {
    TxsBalanceSnoc([], t, a);
    assert [] + [t] == [t];
  }

  lemma {:induction false} UntouchedTxs(txs: seq<Transaction>, a: string)
    requires forall t :: t in txs ==> t.sender != a && t.recipient != a
    ensures TxsBalance(txs, a) == 0
  {
    if txs != [] {
      UntouchedTxs(txs[..|txs| - 1], a);
    }
  }

  /** An address that appears in no committed transaction has balance 0. */
  lemma {:induction false} UntouchedAddress(blocks: seq<Block>, a: string)
    requires forall i, t :: 0 <= i < |blocks| && t in blocks[i].transactions ==>
      t.sender != a && t.recipient != a
    ensures BalanceOf(blocks, a) == 0
  {
    if blocks != [] {
      var init := blocks[..|blocks| - 1];
      var last := blocks[|blocks| - 1];
      assert blocks == init + [last];
      UntouchedAddress(init, a);
      UntouchedTxs(last.transactions, a);
      BalanceOfAppend(init, last, a);
    }
  }

  /** A self-transfer leaves every balance where it was. */
  lemma SelfTransferNets(txs: seq<Transaction>, t: Transaction, a: string)
    requires t.sender == t.recipient
    ensures TxsBalance(txs + [t], a) == TxsBalance(txs, a)
  {
    TxsBalanceSnoc(txs, t, a);
  }

  /** Committing a block that holds the single transfer `t` between two distinct
      addresses debits the sender and credits the recipient by `t.amount`, and leaves
      every other address alone. */
  lemma CommitTransfer(blocks: seq<Block>, b: Block, t: Transaction, c: string)
    requires b.transactions == [t] && t.sender != t.recipient
    ensures BalanceOf(blocks + [b], t.sender) == BalanceOf(blocks, t.sender) - t.amount
    ensures BalanceOf(blocks + [b], t.recipient) == BalanceOf(blocks, t.recipient) + t.amount
    ensures c != t.sender && c != t.recipient ==> BalanceOf(blocks + [b], c) == BalanceOf(blocks, c)
  {
    BalanceOfAppend(blocks, b, t.sender);
    BalanceOfAppend(blocks, b, t.recipient);
    BalanceOfAppend(blocks, b, c);
    TxsBalanceSnoc([], t, t.sender);
    TxsBalanceSnoc([], t, t.recipient);
    TxsBalanceSnoc([], t, c);
    assert [] + [t] == [t];
  }

  // Conservation: transfers neither create nor destroy value.

  ghost predicate Distinct(addrs: seq<string>)
  {
    forall i, j :: 0 <= i < j < |addrs| ==> addrs[i] != addrs[j]
  }

  /** Every address any transaction in `txs` touches is listed in `addrs`. */
  ghost predicate Covers(txs: seq<Transaction>, addrs: seq<string>)
  {
    forall t :: t in txs ==> t.sender in addrs && t.recipient in addrs
  }

  /** Sum of the net balances of the listed addresses. */
  function SumBalances(txs: seq<Transaction>, addrs: seq<string>): int
  {
    if addrs == [] then 0 else TxsBalance(txs, addrs[0]) + SumBalances(txs, addrs[1..])
  }

  /** Sum over the listed addresses of `amount` for each one equal to `x`. */
  function SumMatching(x: string, amount: int, addrs: seq<string>): int
  {
    if addrs == [] then 0 else (if addrs[0] == x then amount else 0) + SumMatching(x, amount, addrs[1..])
  }

  lemma {:induction false} SumMatchingOnce(x: string, amount: int, addrs: seq<string>)
    requires Distinct(addrs)
    ensures SumMatching(x, amount, addrs) == if x in addrs then amount else 0
  {
    if addrs != [] {
      assert Distinct(addrs[1..]);
      SumMatchingOnce(x, amount, addrs[1..]);
      if addrs[0] == x {
        assert x !in addrs[1..];
      } else {
        assert x in addrs <==> x in addrs[1..];
      }
    }
  }

  lemma {:induction false} SumBalancesSnoc(txs: seq<Transaction>, t: Transaction, addrs: seq<string>)
    ensures SumBalances(txs + [t], addrs) ==
      SumBalances(txs, addrs) + SumMatching(t.recipient, t.amount, addrs) - SumMatching(t.sender, t.amount, addrs)
  {
    if addrs != [] {
      TxsBalanceSnoc(txs, t, addrs[0]);
      SumBalancesSnoc(txs, t, addrs[1..]);
    }
  }

  /** The balances of all addresses that ever appear sum to zero: each transaction
      debits exactly what it credits (mining rewards from sender "0" included, since
      "0" is itself an address here). */
  lemma {:induction false} Conservation(txs: seq<Transaction>, addrs: seq<string>)
    requires Distinct(addrs) && Covers(txs, addrs)
    ensures SumBalances(txs, addrs) == 0
  {
    if txs == [] {
      ZeroWhenEmpty(addrs);
    } else {
      var init, t := txs[..|txs| - 1], txs[|txs| - 1];
      assert txs == init + [t];
      assert Covers(init, addrs);
      Conservation(init, addrs);
      SumBalancesSnoc(init, t, addrs);
      SumMatchingOnce(t.recipient, t.amount, addrs);
      SumMatchingOnce(t.sender, t.amount, addrs);
    }
  }

  /** The committed transactions of a chain neither create nor destroy value. */
  lemma ConservationOnChain(blocks: seq<Block>, addrs: seq<string>)
    requires Distinct(addrs) && Covers(Committed(blocks), addrs)
    ensures SumBalances(Committed(blocks), addrs) == 0
  {
    Conservation(Committed(blocks), addrs);
  }

  lemma {:induction false} ZeroWhenEmpty(addrs: seq<string>)
    ensures SumBalances([], addrs) == 0
  {
    if addrs != [] {
      ZeroWhenEmpty(addrs[1..]);
    }
  }
}

# Goblin Trader ledger engine in Dafny

A model of the `Blockchain` class in `Chain.py`: a single-node, append-only ledger
holding a list of blocks (`chain`) and a pool of pending transactions
(`pending_transactions`). Blocks are appended by `new_block`, which drains the pool
into the new block and links it to its predecessor by hash. Transactions enter the
pool through `new_transaction`. `proof_of_work` searches linearly for the first
proof that `valid_proof` accepts, and `get_balance` replays the committed
transactions.

Files:

- `records.dfy` (module `Records`): the transaction and block records, `Option`, and
  Python truthiness of the optional `previous_hash` argument.
- `proof_of_work.dfy` (module `ProofOfWork`): the decimal text of an int (with its
  inverse), Python's `s[:4]` slice, `valid_proof` and the "first valid proof" predicate.
- `balance.dfy` (module `Balance`): the balance as received minus sent over the
  committed transactions, and its laws.
- `chain.dfy` (module `Chain`): the `Blockchain` class, whose methods reassign the
  `chain` and `pending` fields. Beside it are the function `NextBlock` that specifies
  `new_block`, and the index and hash-link invariants.
- `scenarios.dfy` (module `Scenarios`): callers' sequences of operations.

SHA-256 over the sorted-key JSON of a block (`hash`) and SHA-256 over the proof guess
(the digest inside `valid_proof`) are the class's two constant function fields
`hash: Block -> string` and `digest: string -> string`. They are supplied at
construction, so every result holds for any hash and digest. The wall-clock
`time()` is a `real` parameter of the constructor and of `NewBlock`.

Details the model takes from the code:

- `new_block` uses the supplied `previous_hash` only when it is truthy. An empty
  string falls through to the hash of the last block, just like `None` does.
- `last_block` on an empty chain is an index error in the code. The model states it
  as the precondition `|chain| > 0`, which the constructor's genesis block
  establishes.
- Neither the pool nor `new_transaction` checks the sign of `amount`. It is an
  unrestricted `int`.

## Model

| member | source | states |
|---|---|---|
| Chain.Blockchain.constructor | Chain.py:15-25 | the chain is exactly one genesis block: index 1, empty transactions, proof 100 and the fixed "The Times 19/May/2024 …" text as predecessor hash. The pool is empty, and the index invariant and hash linkage hold |
| Chain.Blockchain.NewBlock | Chain.py:61-81 | the chain grows by exactly one block and earlier blocks are unchanged. The new block is `NextBlock` of the old state, its index is the new length and its transactions are the old pool in order. The pool is empty afterwards and the index invariant is kept. The chain stays linked iff it was linked and the new block records the old last block's hash. Every balance moves by exactly the drained transactions |
| Chain.NextBlockKeepsIndexed | Chain.py:72-80 | appending the next block to a chain where block i has index i+1 keeps that true |
| Chain.AppendLinkage | Chain.py:77-80 | a chain extended by one block is linked iff the prefix is linked and the new block's predecessor hash is the hash of the old last block |
| Chain.UnsuppliedHashLinks | Chain.py:77 | with `None` or `""` as the supplied hash, the block equals the one built with no argument, and appending it keeps a linked chain linked |
| Chain.Blockchain.LastBlock | Chain.py:83-91 | needs a non-empty chain. The result is a block of the chain, and under the invariant its index equals the chain length |
| Chain.Blockchain.NewTransaction | Chain.py:93-111 | needs a non-empty chain. Exactly one `{sender, recipient, amount}` record is appended to the end of the pool and the chain is unchanged. The result is the last block's index + 1, which under the index invariant is chain length + 1 |
| Chain.Blockchain.ProofOfWork | Chain.py:27-43 | returns a proof p ≥ 0 that `valid_proof` accepts, and no q with 0 ≤ q < p is accepted |
| ProofOfWork.FirstProofUnique | Chain.py:39-43 | two proofs that are each the first valid one are equal, so the search result is determined |
| ProofOfWork.ValidProofMeaning | Chain.py:45-59 | a proof is valid iff the digest of the last proof's decimal text followed by the proof's text is at least 4 characters long and starts with four '0's |
| ProofOfWork.Take | Chain.py:59 | Python's `s[:n]`: its length is min(n, len s) and it agrees with s on every position it has |
| ProofOfWork.Digits | Chain.py:57 | the decimal rendering of a natural number is non-empty, all digits, with no leading zero except for 0 itself |
| ProofOfWork.DecimalRoundTrip | Chain.py:57 | reading back the decimal text of any int (negative ones included) gives the int |
| ProofOfWork.GuessIsAmbiguous | Chain.py:57-59 | because there is no separator, (1, 23) and (12, 3) hash the same guess "123" and are valid together or not at all |
| Chain.Blockchain.GetBalance | Chain.py:131-148 | the replay loop returns the sum of amounts received by the address minus the sum it sent, over committed blocks only |
| Balance.SumsSplit | Chain.py:141-148 | the received and sent sums split over concatenation of transaction lists |
| Balance.BalanceOfAppend | Chain.py:141-148 | appending a block changes every address's balance by exactly that block's transactions |
| Balance.UntouchedAddress | Chain.py:141-148 | an address that is neither sender nor recipient of any committed transaction has balance 0 |
| Balance.EmptyBlockBalance | Chain.py:141-148 | a chain made of one block without transactions, such as the genesis block, gives every address balance 0 |
| Balance.SingleTxBalance | Chain.py:143-147 | a single transaction credits its recipient and debits its sender by its amount |
| Balance.SelfTransferNets | Chain.py:144-147 | a transaction whose sender is its recipient changes no balance |
| Balance.CommitTransfer | Chain.py:141-148 | committing a single transfer between distinct addresses debits the sender and credits the recipient by its amount, and leaves every other address unchanged |
| Balance.Conservation | Chain.py:141-148 | over any list of distinct addresses covering every sender and recipient, the balances sum to 0 |
| Balance.ConservationOnChain | Chain.py:141-148 | over any list of distinct addresses covering every sender and recipient of a chain's committed transactions, their balances sum to 0 |
| Scenarios.FundedLedger | Blockchain.py:25-32 | a new ledger whose pool receives the mining reward from sender "0" to A before mining has two blocks, an empty pool, A at the reward and B at 0 |
| Scenarios.PoolDrain | Chain.py:75-79 | transactions pooled between two appends land in insertion order in the later block only. The resulting three-block chain is linked |
| Scenarios.EndToEnd | Chain.py:61-148 | fund A with 50, transfer 10 to B after a balance check, then mine. The result is a chain of length 3, an empty pool, A at 40 and B at 10 |
| Scenarios.PooledOverdraw | Blockchain.py:66-70 | two transfers of 5 checked against the committed balance of 5 are both accepted, and once mined the sender's balance is -5 |

## Left out

- `GUI.py` (a tkinter client) and `Blockchain.py` (Flask routes, `uuid4`, `jsonify`) are not part of this model. Two route conventions appear only as caller scenarios: the mining reward from sender "0" is an ordinary transaction (played out in `Scenarios.FundedLedger`), and the committed-only balance check is in `Scenarios.PooledOverdraw`.
- SHA-256 and `json.dumps(sort_keys=True)` are arbitrary functions. Hash determinism is immediate, but "the hash differs when any field changes" is a property of SHA-256 and is not stated.
- The float `time()` timestamp is an opaque `real` supplied by the caller.
- Chain.Blockchain.ProofOfWork: requires that some valid proof exists, because the source's search is unbounded and its termination cannot be proved. Only correctness and minimality on termination are stated.
- Python aliasing is not modelled. The dict returned by `new_block` is the same object stored in the chain, so a caller could mutate it. The model returns a value.
- Chain.Blockchain.NewBlock: requires a non-empty chain when the supplied hash is falsy. In the code `self.chain[-1]` raises an index error there (Chain.py:77). This is unreachable after the constructor.
- Chain.Blockchain.NewTransaction: requires a non-empty chain. In the code the record is appended to the pool before `last_block` raises (Chain.py:110-111), and that partial effect is not modelled. This is unreachable after the constructor.
- The module-level `blockchain = Blockchain()` and the extra `new_block(12345)` at import time are side effects outside the class.

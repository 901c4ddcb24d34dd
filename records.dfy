/** The ledger's records: the transaction and block dictionaries of Chain.py as
    structured values, plus the optional-argument wrapper used by `new_block`. */
module Records {

  datatype Option<+T> = None | Some(value: T)

  /** Python truthiness of an optional text argument: `None` and `""` are both falsy,
      so `previous_hash or ...` falls through on either. */
  predicate Truthy(s: Option<string>)
  {
    s.Some? && s.value != ""
  }

  /** `{'sender', 'recipient', 'amount'}`; addresses are opaque text. */
  datatype Transaction = Transaction(sender: string, recipient: string, amount: int)

  /** `{'index', 'timestamp', 'transactions', 'proof', 'previous_hash'}`.
      The wall-clock timestamp is carried as an opaque real supplied by the caller. */
  datatype Block = Block(
    index: int,
    timestamp: real,
    transactions: seq<Transaction>,
    proof: int,
    previousHash: string)
}

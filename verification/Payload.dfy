/**
 Transactions, bundles and the chain of checkpoints that a payload is built from.

 Executing a transaction is an uninterpreted, deterministic function of the database it runs
 on, which is a checkpoint together with the changes already made on top of it.
 */
module Payload {
  import opened Wrappers

  type Address = nat
  type Hash = nat
  type Slot = nat
  type Value = nat
  type Code = nat

  datatype Transaction = Transaction(hash: Hash, signer: Address, nonce: nat, blobGas: Option<nat>)

  datatype Bundle = Bundle(
    txs: seq<Transaction>,
    reverting: seq<Hash>,
    dropping: seq<Hash>,
    blockNumber: nat,
    minTimestamp: Option<nat>,
    maxTimestamp: Option<nat>)
  {
    predicate IsAllowedToFail(tx: Hash) {
      tx in reverting
    }

    predicate IsOptional(tx: Hash) {
      tx in dropping
    }
  }

  datatype Executable = Single(tx: Transaction) | Bundled(bundle: Bundle)

  function TransactionsOf(e: Executable): seq<Transaction> {
    match e
    case Single(tx) => [tx]
    case Bundled(bundle) => bundle.txs
  }

  datatype TxResult = TxResult(success: bool, gasUsed: nat)

  datatype Info = Info(nonce: nat, balance: nat)

  /** What a change did to an account: its info before and after, None meaning that it does not exist,
      and the storage slots written. */
  datatype AccountDiff = AccountDiff(original: Option<Info>, info: Option<Info>, storage: map<Slot, Value>)

  datatype Diff = Diff(accounts: map<Address, AccountDiff>, codes: map<Hash, Code>)

  const NO_CHANGES := Diff(map[], map[])

  datatype ExecutionResult = ExecutionResult(source: Executable, results: seq<TxResult>, state: Diff)

  datatype Mutation = Barrier | Executed(result: ExecutionResult)

  /** The state of the parent block. */
  datatype World = World(accounts: map<Address, Info>, storage: map<(Address, Slot), Value>, codes: map<Hash, Code>)

  datatype Block = Block(number: nat, timestamp: nat, sequencerTxs: seq<Transaction>, base: World)

  /** `id` is what distinguishes two checkpoints with equal contents. */
  datatype Checkpoint = Checkpoint(id: nat, block: Block, prev: Option<Checkpoint>, depth: nat, mutation: Mutation)
  {
    predicate IsBarrier() {
      mutation.Barrier?
    }
  }

  datatype TxOutcome = Invalid(error: nat) | Ran(result: TxResult, changes: Diff)

  /** Runs a transaction on the state of a checkpoint and the changes already made on top of it. */
  type Evm = (Checkpoint, Diff, Transaction) -> TxOutcome

  /** The state changes of two runs, one after the other. */
  function Commit(first: Diff, second: Diff): Diff {
    Diff(map a | a in first.accounts.Keys + second.accounts.Keys ::
           if a !in second.accounts then first.accounts[a]
           else if a !in first.accounts then second.accounts[a]
           else AccountDiff(first.accounts[a].original, second.accounts[a].info,
                            first.accounts[a].storage + second.accounts[a].storage),
         first.codes + second.codes)
  }

  function Transactions(c: Checkpoint): seq<Transaction> {
    match c.mutation
    case Barrier => []
    case Executed(r) => TransactionsOf(r.source)
  }

  function GasUsed(c: Checkpoint): nat {
    match c.mutation
    case Barrier => 0
    case Executed(r) => SumGas(r.results)
  }

  function SumGas(results: seq<TxResult>): nat {
    if results == [] then 0 else SumGas(results[..|results| - 1]) + results[|results| - 1].gasUsed
  }

  // ---------------------------------------------------------------------------------------
  // Chains

  /** The depth counts the checkpoints before this one, all of one block, and the first is a barrier. */
  ghost predicate WellFormed(c: Checkpoint) {
    match c.prev
    case None => c.depth == 0 && c.IsBarrier()
    case Some(p) => c.depth == p.depth + 1 && c.block == p.block && WellFormed(p)
  }

  /** `a` is `c` or one of its ancestors. */
  predicate IsAncestor(a: Checkpoint, c: Checkpoint) {
    a == c || (c.prev.Some? && IsAncestor(a, c.prev.value))
  }

  /** Start of a payload. */
  function NewAtBlock(block: Block, id: nat): (c: Checkpoint)
    ensures WellFormed(c)
  {
    Checkpoint(id, block, None, 0, Barrier)
  }

  function ApplyWith(c: Checkpoint, mutation: Mutation, id: nat): (r: Checkpoint)
    ensures WellFormed(c) ==> WellFormed(r)
  {
    Checkpoint(id, c.block, Some(c), c.depth + 1, mutation)
  }
}

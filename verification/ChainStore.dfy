/** The chain database, the block validator and the ingest path of the node, over values.
    A hash is the 256-bit integer it spells; a block carries its own hash. */
module ChainStore {
  import opened Basics

  type Hash = nat
  const ZERO_HASH: Hash := 0
  const BLOCK_REWARD: nat := 50 * 100_000_000
  const COINBASE_MATURITY: nat := 100
  const MAX_BLOCK_SIZE: nat := 1_000_000
  const MAX_TRANSACTIONS_PER_BLOCK: nat := 5000
  const MAX_DRIFT: nat := 7200

  datatype OutPoint = OutPoint(txid: Hash, vout: nat)
  const COINBASE_OUTPOINT := OutPoint(ZERO_HASH, 0xFFFF_FFFF)

  datatype Utxo = Utxo(value: nat, height: nat, isCoinbase: bool)

  /** `unlocks` is the verdict of the signature check against the spent output's script. */
  datatype TxInput = TxInput(previous: OutPoint, unlocks: bool)
  datatype Transaction = Transaction(txid: Hash, inputs: seq<TxInput>, outputs: seq<nat>)

  /** `size` is the encoded length; `isSealed` is the verdict of the proof-of-work and Merkle-root checks. */
  datatype Block = Block(hash: Hash, parent: Hash, height: nat, timestamp: nat, size: nat, isSealed: bool,
                         transactions: seq<Transaction>)

  datatype Tip = Tip(height: nat, hash: Hash)
  datatype Chain = Chain(blocks: map<Hash, Block>, heights: map<nat, Hash>, utxos: map<OutPoint, Utxo>, tip: Tip)

  type UtxoSet = map<OutPoint, Utxo>

  function Genesis(g: Block): Chain {
    Chain(map[g.hash := g], map[0 := g.hash], map[], Tip(0, g.hash))
  }

  // ---- Transactions ----

  predicate IsCoinbase(tx: Transaction) {
    |tx.inputs| == 1 && tx.inputs[0].previous == COINBASE_OUTPOINT
  }

  function Sum(values: seq<nat>): nat {
    if values == [] then 0 else values[0] + Sum(values[1..])
  }

  /** The u64 total, which wraps. */
  function TotalOutput(tx: Transaction): nat {
    Sum(tx.outputs) % U64
  }

  function SpentBy(tx: Transaction): set<OutPoint> {
    set i | i in tx.inputs && i.previous != COINBASE_OUTPOINT :: i.previous
  }

  function CreatedBy(tx: Transaction): set<OutPoint> {
    set v: nat | v < |tx.outputs| :: OutPoint(tx.txid, v)
  }

  function Outputs(tx: Transaction, height: nat): UtxoSet {
    map p | p in CreatedBy(tx) :: Utxo(tx.outputs[p.vout], height, IsCoinbase(tx))
  }

  /** Spend the inputs, then add the outputs. */
  function ApplyTx(u: UtxoSet, tx: Transaction, height: nat): UtxoSet {
    (u - SpentBy(tx)) + Outputs(tx, height)
  }

  function ApplyTxs(u: UtxoSet, txs: seq<Transaction>, height: nat): UtxoSet
    decreases |txs|
  {
    if txs == [] then u else ApplyTxs(ApplyTx(u, txs[0], height), txs[1..], height)
  }

  /** Rolling back removes what the transactions created and restores nothing they spent. */
  function UndoTxs(u: UtxoSet, txs: seq<Transaction>): UtxoSet
    decreases |txs|
  {
    if txs == [] then u else UndoTxs(u - CreatedBy(txs[|txs| - 1]), txs[..|txs| - 1])
  }

  // ---- Validation ----

  predicate IsMature(u: Utxo, height: nat) {
    !u.isCoinbase || height >= u.height + COINBASE_MATURITY
  }

  /** The input loop: the outpoints spent so far in the block and the wrapped total, or a refusal. */
  function CheckInputs(u: UtxoSet, height: nat, inputs: seq<TxInput>, spent: set<OutPoint>,
                       total: nat): Option<(set<OutPoint>, nat)>
    decreases |inputs|
  {
    if inputs == [] then Some((spent, total))
    else
      var p := inputs[0].previous;
      if p in spent || p !in u || !IsMature(u[p], height) || !inputs[0].unlocks then None
      else CheckInputs(u, height, inputs[1..], spent + {p}, (total + u[p].value) % U64)
  }

  function CheckTransaction(u: UtxoSet, height: nat, tx: Transaction, spent: set<OutPoint>): Option<set<OutPoint>> {
    if tx.inputs == [] || tx.outputs == [] then None
    else
      match CheckInputs(u, height, tx.inputs, spent, 0)
      case None => None
      case Some((spent', total)) => if total < TotalOutput(tx) then None else Some(spent')
  }

  predicate CheckTransactions(u: UtxoSet, height: nat, txs: seq<Transaction>, spent: set<OutPoint>)
    decreases |txs|
  {
    txs == [] ||
    match CheckTransaction(u, height, txs[0], spent)
    case None => false
    case Some(spent') => CheckTransactions(u, height, txs[1..], spent')
  }

  predicate CheckCoinbase(tx: Transaction) {
    IsCoinbase(tx) && tx.outputs != [] && TotalOutput(tx) <= BLOCK_REWARD
  }

  predicate StructureOk(b: Block) {
    && b.size <= MAX_BLOCK_SIZE && |b.transactions| <= MAX_TRANSACTIONS_PER_BLOCK
    && (b.height > 0 ==> b.transactions != [])
  }

  predicate ChainLinkOk(c: Chain, b: Block) {
    if b.height == 0 then b.parent == ZERO_HASH
    else b.parent == c.tip.hash && b.height == c.tip.height + 1
  }

  predicate TimestampOk(c: Chain, b: Block, now: nat) {
    && b.timestamp <= now + MAX_DRIFT
    && (b.height > 0 && b.parent in c.blocks ==> c.blocks[b.parent].timestamp <= b.timestamp)
  }

  predicate TransactionsOk(c: Chain, b: Block) {
    b.transactions == [] ||
    (CheckCoinbase(b.transactions[0]) && CheckTransactions(c.utxos, b.height, b.transactions[1..], {}))
  }

  predicate ValidateBlock(c: Chain, b: Block, now: nat) {
    StructureOk(b) && b.isSealed && ChainLinkOk(c, b) && TimestampOk(c, b, now) && TransactionsOk(c, b)
  }

  // ---- Commit, ingest, mining, rollback ----

  function Store(c: Chain, b: Block): Chain {
    Chain(c.blocks[b.hash := b], c.heights[b.height := b.hash],
          ApplyTxs(c.utxos, b.transactions, b.height), Tip(b.height, b.hash))
  }

  function CommitBlock(c: Chain, b: Block): Option<Chain> {
    if b.height > 0 && b.parent != c.tip.hash then None
    else if b.height != c.tip.height + 1 && b.height != 0 then None
    else Some(Store(c, b))
  }

  function ProcessSingleBlock(c: Chain, b: Block, now: nat): (Chain, bool) {
    if b.hash in c.blocks then (c, false)
    else if b.parent != c.tip.hash && (b.height <= c.tip.height || b.parent !in c.blocks) then (c, false)
    else if !ValidateBlock(c, b, now) then (c, false)
    else
      match CommitBlock(c, b)
      case None => (c, false)
      case Some(d) => (d, true)
  }

  function InsertByHeight(b: Block, sorted: seq<Block>): seq<Block> {
    if sorted == [] || b.height <= sorted[0].height then [b] + sorted
    else [sorted[0]] + InsertByHeight(b, sorted[1..])
  }

  /** A stable sort by height. */
  function SortByHeight(bs: seq<Block>): seq<Block> {
    if bs == [] then [] else InsertByHeight(bs[0], SortByHeight(bs[1..]))
  }

  function ProcessAll(c: Chain, bs: seq<Block>, now: nat): (Chain, nat)
    decreases |bs|
  {
    if bs == [] then (c, 0)
    else
      var (d, committed) := ProcessSingleBlock(c, bs[0], now);
      var (e, n) := ProcessAll(d, bs[1..], now);
      (e, n + if committed then 1 else 0)
  }

  function ProcessBlocksBatch(c: Chain, bs: seq<Block>, now: nat): (Chain, nat) {
    ProcessAll(c, SortByHeight(bs), now)
  }

  /** The miner builds its block on the current tip, so a block with another parent or height is not one. */
  function MineBlock(c: Chain, b: Block, now: nat): Chain {
    if b.parent != c.tip.hash || b.height != c.tip.height + 1 || !ValidateBlock(c, b, now) then c
    else
      match CommitBlock(c, b)
      case None => c
      case Some(d) => d
  }

  function BlockAt(c: Chain, h: nat): Option<Block> {
    if h in c.heights && c.heights[h] in c.blocks then Some(c.blocks[c.heights[h]]) else None
  }

  function UndoBlock(c: Chain, b: Block): Chain {
    c.(heights := c.heights - {b.height}, utxos := UndoTxs(c.utxos, b.transactions))
  }

  /** Undo the blocks at heights target + 1 up to h, highest first. */
  function UndoDownTo(c: Chain, h: nat, target: nat): Chain
    decreases h
  {
    if h <= target then c
    else
      match BlockAt(c, h)
      case None => UndoDownTo(c, h - 1, target)
      case Some(b) => UndoDownTo(UndoBlock(c, b), h - 1, target)
  }

  function RollbackTo(c: Chain, target: nat): Chain {
    if target >= c.tip.height then c
    else
      var d := UndoDownTo(c, c.tip.height, target);
      match BlockAt(d, target)
      case None => d
      case Some(b) => d.(tip := Tip(target, b.hash))
  }

  // ---- Runs ----

  datatype Op =
    | Receive(block: Block, now: nat)
    | ReceiveBatch(blocks: seq<Block>, now: nat)
    | Mine(block: Block, now: nat)
    | Rollback(target: nat)

  function Step(c: Chain, op: Op): Chain {
    match op
    case Receive(b, now) => ProcessSingleBlock(c, b, now).0
    case ReceiveBatch(bs, now) => ProcessBlocksBatch(c, bs, now).0
    case Mine(b, now) => MineBlock(c, b, now)
    case Rollback(target) => RollbackTo(c, target)
  }

  function Run(c: Chain, ops: seq<Op>): Chain {
    if ops == [] then c else Step(Run(c, ops[..|ops| - 1]), ops[|ops| - 1])
  }

  ghost predicate Mentions(op: Op, b: Block) {
    match op
    case Receive(x, _) => x == b
    case ReceiveBatch(xs, _) => b in xs
    case Mine(x, _) => x == b
    case Rollback(_) => false
  }
}

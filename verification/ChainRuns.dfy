/** What holds of the chain database after every run of ingest, mining and rollback. */
module ChainRuns {
  import opened Basics
  import opened ChainStore
  import opened ChainInvariant
  import opened ChainSupply

  function CreatedByAll(txs: seq<Transaction>): set<OutPoint> {
    set tx, p | tx in txs && p in CreatedBy(tx) :: p
  }

  function SpentByAll(txs: seq<Transaction>): set<OutPoint> {
    set tx, p | tx in txs && p in SpentBy(tx) :: p
  }

  /** The transaction has this output, and the record of it carries its value, the height, and whether the
      transaction is a coinbase: a single input that names the null outpoint. */
  ghost predicate Made(tx: Transaction, height: nat, p: OutPoint, o: Utxo) {
    && tx.txid == p.txid && p.vout < |tx.outputs|
    && o.value == tx.outputs[p.vout] && o.height == height
    && (o.isCoinbase <==> |tx.inputs| == 1 && tx.inputs[0].previous == OutPoint(0, 0xFFFF_FFFF))
  }

  ghost predicate MadeBy(txs: seq<Transaction>, height: nat, p: OutPoint, o: Utxo) {
    exists tx :: tx in txs && Made(tx, height, p, o)
  }

  /** Each unspent output was created, as recorded, by the canonical block at its recorded height. */
  ghost predicate ProvenAt(c: Chain, p: OutPoint)
    requires p in c.utxos
  {
    var h := c.utxos[p].height;
    && 1 <= h <= c.tip.height && h in c.heights && c.heights[h] in c.blocks
    && p in CreatedByAll(c.blocks[c.heights[h]].transactions)
    && MadeBy(c.blocks[c.heights[h]].transactions, h, p, c.utxos[p])
  }

  ghost predicate Proven(c: Chain) {
    COINBASE_OUTPOINT !in c.utxos && forall p :: p in c.utxos ==> ProvenAt(c, p)
  }

  function Upto(u: UtxoSet, h: nat): UtxoSet {
    map p | p in u && u[p].height <= h :: u[p]
  }

  /** No output total overflows in the canonical blocks from height 1 to h. */
  ghost predicate FitsUpto(c: Chain, h: nat) {
    forall k: nat :: 1 <= k <= h ==> FitsAt(c, k)
  }

  ghost predicate FitsAt(c: Chain, k: nat) {
    match BlockAt(c, k)
    case None => true
    case Some(b) => Fits(b.transactions)
  }

  /** At every height up to which no total overflows, the outputs created up to it are worth at most one
      reward per block. */
  ghost predicate Bounded(c: Chain) {
    forall h: nat :: h <= c.tip.height && FitsUpto(c, h) ==> Supply(Upto(c.utxos, h)) <= BLOCK_REWARD * h
  }

  ghost predicate Inv(c: Chain, g: Block, world: set<Block>) {
    Canonical(c, g) && Rooted(c, g, world) && Proven(c) && Bounded(c)
  }

  // ---- Effects of a block on single outpoints ----

  lemma ApplyTxAt(u: UtxoSet, tx: Transaction, height: nat, p: OutPoint)
    ensures p in ApplyTx(u, tx, height) <==> p in CreatedBy(tx) || (p in u && p !in SpentBy(tx))
    ensures p in CreatedBy(tx) ==> ApplyTx(u, tx, height)[p].height == height
    ensures p !in CreatedBy(tx) && p in u && p !in SpentBy(tx) ==> ApplyTx(u, tx, height)[p] == u[p]
  {
  }

  /** An output present after a block was created by it or was there before; one it neither creates nor
      spends is untouched. */
  lemma {:induction false} AppliedAt(u: UtxoSet, txs: seq<Transaction>, height: nat, p: OutPoint)
    ensures var w := ApplyTxs(u, txs, height);
            && (p in w ==> (p in CreatedByAll(txs) && w[p].height == height) || (p in u && w[p] == u[p]))
            && (p !in CreatedByAll(txs) ==> (p in w <==> p in u && p !in SpentByAll(txs)))
    decreases |txs|
  {
    if txs != [] {
      var tx, rest := txs[0], txs[1..];
      hide Outputs;
      ApplyTxAt(u, tx, height, p);
      AppliedAt(ApplyTx(u, tx, height), rest, height, p);
      assert txs == [tx] + rest;
      assert p in CreatedByAll(txs) <==> p in CreatedBy(tx) || p in CreatedByAll(rest);
      assert p in SpentByAll(txs) <==> p in SpentBy(tx) || p in SpentByAll(rest);
    }
  }

  /** What a block creates is recorded as its transactions have it. */
  lemma {:induction false} AppliedAsMade(u: UtxoSet, txs: seq<Transaction>, height: nat, p: OutPoint)
    ensures var w := ApplyTxs(u, txs, height);
            p in w ==> (p in CreatedByAll(txs) && MadeBy(txs, height, p, w[p])) || (p in u && w[p] == u[p])
    decreases |txs|
  {
    if txs != [] {
      var tx, rest := txs[0], txs[1..];
      var next, w := ApplyTx(u, tx, height), ApplyTxs(u, txs, height);
      AppliedAsMade(next, rest, height, p);
      assert txs == [tx] + rest;
      assert p in CreatedByAll(txs) <==> p in CreatedBy(tx) || p in CreatedByAll(rest);
      if p in CreatedBy(tx) {
        assert Made(tx, height, p, next[p]);
      }
      if p in w && p in CreatedByAll(rest) && MadeBy(rest, height, p, w[p]) {
        var made :| made in rest && Made(made, height, p, w[p]);
        assert made in txs;
      }
    }
  }

  lemma {:induction false} UndoneAt(u: UtxoSet, txs: seq<Transaction>, p: OutPoint)
    ensures var w := UndoTxs(u, txs);
            && (p in w <==> p in u && p !in CreatedByAll(txs))
            && (p in w ==> w[p] == u[p])
    decreases |txs|
  {
    if txs != [] {
      var rest, tx := txs[..|txs| - 1], txs[|txs| - 1];
      UndoneAt(u - CreatedBy(tx), rest, p);
      assert txs == rest + [tx];
      assert p in CreatedByAll(txs) <==> p in CreatedBy(tx) || p in CreatedByAll(rest);
    }
  }

  // ---- Storing an extension ----

  lemma StoreKeepsProven(c: Chain, g: Block, world: set<Block>, b: Block, now: nat)
    requires Canonical(c, g) && Proven(c) && Extends(c, b, now) && Encodable(b)
    requires forall k <- c.blocks :: Store(c, b).blocks[k] == c.blocks[k]
    ensures Proven(Store(c, b))
  {
    hide ApplyTxs;
    hide CreatedByAll;
    hide CheckTransactions;
    var d := Store(c, b);
    CreatedIsSmall(b);
    AppliedAt(c.utxos, b.transactions, b.height, COINBASE_OUTPOINT);
    forall p | p in d.utxos
      ensures ProvenAt(d, p)
    {
      AppliedAsMade(c.utxos, b.transactions, b.height, p);
      if p in c.utxos {
        assert ProvenAt(c, p);
      }
    }
  }

  lemma CreatedIsSmall(b: Block)
    requires Encodable(b) && b.size <= MAX_BLOCK_SIZE
    ensures COINBASE_OUTPOINT !in CreatedByAll(b.transactions)
  {
  }

  lemma UptoEverything(c: Chain)
    requires Proven(c)
    ensures Upto(c.utxos, c.tip.height) == c.utxos
  {
    forall p | p in c.utxos
      ensures c.utxos[p].height <= c.tip.height
    {
      assert ProvenAt(c, p);
    }
  }

  lemma OldOutputsOnlyShrink(c: Chain, b: Block, h: nat)
    requires h < b.height
    ensures Supply(Upto(Store(c, b).utxos, h)) <= Supply(Upto(c.utxos, h))
  {
    hide Supply;
    hide ApplyTxs;
    hide CreatedByAll;
    var u, w := Upto(c.utxos, h), Upto(Store(c, b).utxos, h);
    forall p | p in w
      ensures p in u && u[p] == w[p]
    {
      AppliedAt(c.utxos, b.transactions, b.height, p);
    }
    SupplyMonotone(w, u);
  }

  lemma StoreKeepsFits(c: Chain, g: Block, b: Block, h: nat)
    requires Canonical(c, g) && b.height == c.tip.height + 1 && h <= b.height
    requires forall k <- c.blocks :: Store(c, b).blocks[k] == c.blocks[k]
    requires FitsUpto(Store(c, b), h)
    ensures FitsUpto(c, if h < b.height then h else c.tip.height)
    ensures h == b.height ==> Fits(b.transactions)
  {
    hide ApplyTxs;
    var d := Store(c, b);
    forall k: nat | 1 <= k <= h && k <= c.tip.height
      ensures FitsAt(c, k)
    {
      assert LinkedAt(c, k) && FitsAt(d, k);
      assert BlockAt(d, k) == BlockAt(c, k);
    }
    if h == b.height {
      assert FitsAt(d, h) && BlockAt(d, h) == Some(b);
    }
  }

  lemma StoreKeepsBounded(c: Chain, g: Block, b: Block, now: nat)
    requires Canonical(c, g) && Proven(c) && Bounded(c) && Extends(c, b, now) && Proven(Store(c, b))
    requires forall k <- c.blocks :: Store(c, b).blocks[k] == c.blocks[k]
    ensures Bounded(Store(c, b))
  {
    hide Supply;
    hide ApplyTxs;
    hide CheckTransactions;
    hide ProvenAt;
    hide FitsUpto;
    var d := Store(c, b);
    UptoEverything(c);
    UptoEverything(d);
    forall h: nat | h <= d.tip.height && FitsUpto(d, h)
      ensures Supply(Upto(d.utxos, h)) <= BLOCK_REWARD * h
    {
      StoreKeepsFits(c, g, b, h);
      if h < d.tip.height {
        OldOutputsOnlyShrink(c, b, h);
      } else {
        BlockConserves(c.utxos, b);
      }
    }
  }

  lemma StoreKeepsInv(c: Chain, g: Block, world: set<Block>, b: Block, now: nat)
    requires Sound(world, g) && Inv(c, g, world) && b in world && Extends(c, b, now)
    ensures Inv(Store(c, b), g, world)
    ensures forall k <- c.blocks :: Store(c, b).blocks[k] == c.blocks[k]
  {
    hide LinkedAt;
    hide RootedAt;
    hide ProvenAt;
    hide Bounded;
    hide ValidateBlock;
    StoreKeepsBlocks(c, g, world, b);
    StoreKeepsCanonical(c, g, b);
    StoreKeepsRooted(c, g, world, b, now);
    StoreKeepsProven(c, g, world, b, now);
    StoreKeepsBounded(c, g, b, now);
  }

  // ---- Rolling back ----

  /** Rolling back keeps an output exactly when no undone block created it. */
  lemma {:induction false} UndoKeepsOutputs(c: Chain, h: nat, target: nat, p: OutPoint)
    requires forall k: nat :: target < k <= h && k in c.heights ==>
               c.heights[k] in c.blocks && c.blocks[c.heights[k]].height == k
    ensures var d := UndoDownTo(c, h, target);
            && (p in d.utxos ==> p in c.utxos && d.utxos[p] == c.utxos[p])
            && (p in d.utxos <==>
                  && p in c.utxos
                  && forall k: nat :: target < k <= h && k in c.heights ==>
                       p !in CreatedByAll(c.blocks[c.heights[k]].transactions))
    decreases h
  {
    if h > target {
      hide CreatedByAll;
      match BlockAt(c, h)
      case None => UndoKeepsOutputs(c, h - 1, target, p);
      case Some(b) =>
        UndoneAt(c.utxos, b.transactions, p);
        hide UndoTxs;
        UndoKeepsOutputs(UndoBlock(c, b), h - 1, target, p);
        assert forall k :: k in UndoBlock(c, b).heights <==> k in c.heights && k != h;
    }
  }

  lemma RollbackKeepsOldOutputs(c: Chain, g: Block, target: nat, p: OutPoint)
    requires Canonical(c, g) && Proven(c) && target < c.tip.height && p in RollbackTo(c, target).utxos
    ensures p in c.utxos && RollbackTo(c, target).utxos[p] == c.utxos[p] && c.utxos[p].height <= target
  {
    hide CreatedByAll;
    forall h | h in c.heights
      ensures c.heights[h] in c.blocks && c.blocks[c.heights[h]].height == h
    {
      assert LinkedAt(c, h);
    }
    UndoKeepsOutputs(c, c.tip.height, target, p);
    assert ProvenAt(c, p);
  }

  lemma SameBlocksFit(c: Chain, d: Chain, h: nat)
    requires FitsUpto(d, h) && d.blocks == c.blocks
    requires forall k: nat :: k <= h && k in c.heights ==> k in d.heights && d.heights[k] == c.heights[k]
    ensures FitsUpto(c, h)
  {
    forall k: nat | 1 <= k <= h
      ensures FitsAt(c, k)
    {
      assert FitsAt(d, k);
    }
  }

  lemma RollbackKeepsInv(c: Chain, g: Block, world: set<Block>, target: nat)
    requires Inv(c, g, world)
    ensures Inv(RollbackTo(c, target), g, world) && RollbackTo(c, target).blocks == c.blocks
  {
    hide Supply;
    hide CreatedByAll;
    RollbackKeepsShape(c, g, world, target);
    if target < c.tip.height {
      var d := RollbackTo(c, target);
      hide RollbackTo;
      hide RootedAt;
      hide LinkedAt;
      forall p | p in d.utxos
        ensures ProvenAt(d, p)
      {
        RollbackKeepsOldOutputs(c, g, target, p);
        assert ProvenAt(c, p);
      }
      if COINBASE_OUTPOINT in d.utxos {
        RollbackKeepsOldOutputs(c, g, target, COINBASE_OUTPOINT);
      }
      forall h: nat | h <= d.tip.height && FitsUpto(d, h)
        ensures Supply(Upto(d.utxos, h)) <= BLOCK_REWARD * h
      {
        SameBlocksFit(c, d, h);
        forall p | p in Upto(d.utxos, h)
          ensures p in Upto(c.utxos, h) && Upto(c.utxos, h)[p] == Upto(d.utxos, h)[p]
        {
          RollbackKeepsOldOutputs(c, g, target, p);
        }
        SupplyMonotone(Upto(d.utxos, h), Upto(c.utxos, h));
      }
    }
  }

  // ---- Steps and runs ----

  ghost predicate Keeps(c: Chain, d: Chain) {
    forall k <- c.blocks :: k in d.blocks && d.blocks[k] == c.blocks[k]
  }

  lemma TipIsNotZero(c: Chain, g: Block, world: set<Block>)
    requires Sound(world, g) && Canonical(c, g) && Rooted(c, g, world)
    ensures c.tip.hash != ZERO_HASH
  {
    assert LinkedAt(c, c.tip.height);
    assert c.blocks[c.tip.hash] in world;
  }

  lemma IngestKeepsInv(c: Chain, g: Block, world: set<Block>, b: Block, now: nat)
    requires Sound(world, g) && Inv(c, g, world) && b in world
    ensures Inv(ProcessSingleBlock(c, b, now).0, g, world) && Keeps(c, ProcessSingleBlock(c, b, now).0)
  {
    hide Bounded;
    hide Proven;
    hide Extends;
    hide Store;
    TipIsNotZero(c, g, world);
    hide Canonical;
    hide Rooted;
    IngestStoresExtensions(c, b, now);
    hide ProcessSingleBlock;
    if ProcessSingleBlock(c, b, now).1 {
      StoreKeepsInv(c, g, world, b, now);
      KeepsFromStore(c, b);
    }
  }

  lemma KeepsFromStore(c: Chain, b: Block)
    requires forall k <- c.blocks :: Store(c, b).blocks[k] == c.blocks[k]
    ensures Keeps(c, Store(c, b))
  {
    hide ApplyTxs;
  }

  lemma {:induction false} SortKeepsMembers(bs: seq<Block>)
    ensures forall b :: b in SortByHeight(bs) <==> b in bs
  {
    if bs != [] {
      SortKeepsMembers(bs[1..]);
      InsertKeepsMembers(bs[0], SortByHeight(bs[1..]));
      assert bs == [bs[0]] + bs[1..];
    }
  }

  lemma {:induction false} InsertKeepsMembers(b: Block, sorted: seq<Block>)
    ensures forall x :: x in InsertByHeight(b, sorted) <==> x == b || x in sorted
  {
    if sorted != [] && b.height > sorted[0].height {
      InsertKeepsMembers(b, sorted[1..]);
      assert sorted == [sorted[0]] + sorted[1..];
    }
  }

  lemma {:induction false} IngestAllKeepsInv(c: Chain, g: Block, world: set<Block>, bs: seq<Block>, now: nat)
    requires Sound(world, g) && Inv(c, g, world) && forall b <- bs :: b in world
    ensures Inv(ProcessAll(c, bs, now).0, g, world) && Keeps(c, ProcessAll(c, bs, now).0)
    decreases |bs|
  {
    hide Inv;
    hide Sound;
    hide ProcessSingleBlock;
    if bs != [] {
      IngestKeepsInv(c, g, world, bs[0], now);
      IngestAllKeepsInv(ProcessSingleBlock(c, bs[0], now).0, g, world, bs[1..], now);
    }
  }

  lemma StepKeepsInv(c: Chain, g: Block, world: set<Block>, op: Op)
    requires Sound(world, g) && Inv(c, g, world)
    requires forall b :: Mentions(op, b) ==> b in world
    ensures Inv(Step(c, op), g, world) && Keeps(c, Step(c, op))
  {
    hide Inv;
    hide Sound;
    hide Store;
    hide ProcessSingleBlock;
    hide SortByHeight;
    hide ProcessAll;
    hide RollbackTo;
    hide MineBlock;
    match op
    case Receive(b, now) =>
      assert Mentions(op, b);
      IngestKeepsInv(c, g, world, b, now);
    case ReceiveBatch(bs, now) =>
      SortKeepsMembers(bs);
      forall b | b in SortByHeight(bs)
        ensures b in world
      {
        assert Mentions(op, b);
      }
      IngestAllKeepsInv(c, g, world, SortByHeight(bs), now);
    case Mine(b, now) =>
      assert Mentions(op, b);
      MiningStoresExtensions(c, b, now);
      if Extends(c, b, now) {
        StoreKeepsInv(c, g, world, b, now);
        KeepsFromStore(c, b);
      }
    case Rollback(target) =>
      RollbackKeepsInv(c, g, world, target);
  }

  lemma GenesisShape(g: Block, world: set<Block>)
    requires g in world && g.height == 0
    ensures Canonical(Genesis(g), g) && Rooted(Genesis(g), g, world)
  {
    assert LinkedAt(Genesis(g), 0);
  }

  lemma GenesisInv(g: Block, world: set<Block>)
    requires Sound(world, g)
    ensures Inv(Genesis(g), g, world)
  {
    hide Supply;
    GenesisShape(g, world);
    hide Canonical;
    hide Rooted;
    SupplyEmpty(Upto(Genesis(g).utxos, 0));
  }

  ghost predicate Drawn(ops: seq<Op>, world: set<Block>) {
    forall n :: 0 <= n < |ops| ==> forall b :: Mentions(ops[n], b) ==> b in world
  }

  lemma {:induction false} RunKeepsInv(g: Block, world: set<Block>, ops: seq<Op>)
    requires Sound(world, g) && Drawn(ops, world)
    ensures Inv(Run(Genesis(g), ops), g, world)
  {
    hide Inv;
    hide Sound;
    hide Step;
    if ops == [] {
      GenesisInv(g, world);
    } else {
      RunKeepsInv(g, world, ops[..|ops| - 1]);
      StepKeepsInv(Run(Genesis(g), ops[..|ops| - 1]), g, world, ops[|ops| - 1]);
    }
  }

  /** In every run, every stored block is exactly its height many parent links above genesis, and the
      height index is the tip's ancestry. */
  lemma StoredBlocksReachGenesis(g: Block, world: set<Block>, ops: seq<Op>, k: Hash, h: nat)
    requires Sound(world, g) && Drawn(ops, world)
    ensures
      var c := Run(Genesis(g), ops);
      && (k in c.blocks ==> Ancestor(c, k, c.blocks[k].height) == Some(g.hash))
      && (h in c.heights <==> h <= c.tip.height)
      && (h in c.heights ==> Ancestor(c, c.tip.hash, c.tip.height - h) == Some(c.heights[h]))
  {
    hide Run;
    hide Bounded;
    hide Proven;
    hide LinkedAt;
    hide Rooted;
    hide Ancestor;
    RunKeepsInv(g, world, ops);
    var c := Run(Genesis(g), ops);
    if k in c.blocks {
      ReachesGenesis(c, g, world, k);
    }
    if h in c.heights {
      CanonicalIsAncestry(c, g, h, c.tip.height);
    }
  }

  /** In every run that leaves no overflowing output total in the canonical chain above genesis, all unspent
      outputs together are worth at most one block reward per block. */
  lemma SupplyIsBounded(g: Block, world: set<Block>, ops: seq<Op>)
    requires Sound(world, g) && Drawn(ops, world)
    requires FitsUpto(Run(Genesis(g), ops), Run(Genesis(g), ops).tip.height)
    ensures Supply(Run(Genesis(g), ops).utxos) <= 5_000_000_000 * Run(Genesis(g), ops).tip.height
  {
    hide Run;
    hide Supply;
    hide FitsUpto;
    RunKeepsInv(g, world, ops);
    UptoEverything(Run(Genesis(g), ops));
  }

  /** A block on genesis whose coinbase has two outputs of 2^63 each. */
  function OverflowingBlock(g: Block, hash: Hash): Block {
    var half := U64 / 2;
    var coinbase := Transaction(hash, [TxInput(COINBASE_OUTPOINT, true)], [half, half]);
    Block(hash, g.hash, 1, g.timestamp, 2, true, [coinbase])
  }

  lemma OverflowingTotals(g: Block, hash: Hash)
    ensures var tx := OverflowingBlock(g, hash).transactions[0];
            Sum(tx.outputs) == U64 && TotalOutput(tx) == 0 && CheckCoinbase(tx)
  {
    SumOfTwo(OverflowingBlock(g, hash).transactions[0].outputs);
  }

  lemma OverflowingOutputs(g: Block, hash: Hash)
    ensures Supply(ApplyTxs(map[], OverflowingBlock(g, hash).transactions, 1)) == U64
  {
    hide Supply;
    var txs := OverflowingBlock(g, hash).transactions;
    var tx := txs[0];
    OverflowingTotals(g, hash);
    OutputsWorth(tx, 1, 0);
    hide Sum;
    assert tx.outputs[0..] == tx.outputs && txs[1..] == [];
    assert ApplyTx(map[], tx, 1) == OutputsFrom(tx, 1, 0);
  }

  lemma OverflowingBlockIsValid(g: Block, hash: Hash)
    requires g.height == 0
    ensures Extends(Genesis(g), OverflowingBlock(g, hash), g.timestamp)
  {
    OverflowingTotals(g, hash);
    assert OverflowingBlock(g, hash).transactions[1..] == [];
  }

  /** The guard is needed: the total of that coinbase wraps to zero, the block is stored, and the outputs
      are then worth 2^64. */
  lemma OverflowingBlockBreaksBound(g: Block, hash: Hash)
    requires g.height == 0 && g.hash != ZERO_HASH && hash != g.hash
    ensures
      var (c, stored) := ProcessSingleBlock(Genesis(g), OverflowingBlock(g, hash), g.timestamp);
      stored && c.tip.height == 1 && Supply(c.utxos) == 0x1_0000_0000_0000_0000 > 5_000_000_000 * c.tip.height
  {
    hide Supply;
    hide ApplyTxs;
    hide Extends;
    OverflowingBlockIsValid(g, hash);
    OverflowingOutputs(g, hash);
    IngestStoresExtensions(Genesis(g), OverflowingBlock(g, hash), g.timestamp);
    hide ProcessSingleBlock;
  }

  lemma SumOfTwo(values: seq<nat>)
    requires |values| == 2
    ensures Sum(values) == values[0] + values[1]
  {
    assert values[1..] == [values[1]] && Sum([values[1]]) == values[1] + Sum([]);
  }

  /** Once stored, a block stays stored, unchanged, whatever happens later. */
  lemma {:induction false} StoredBlocksStay(g: Block, world: set<Block>, ops: seq<Op>, later: seq<Op>)
    requires Sound(world, g) && Drawn(ops, world) && Drawn(later, world)
    ensures Inv(Run(Run(Genesis(g), ops), later), g, world)
    ensures Keeps(Run(Genesis(g), ops), Run(Run(Genesis(g), ops), later))
    decreases |later|
  {
    hide Inv;
    hide Sound;
    hide Step;
    RunKeepsInv(g, world, ops);
    if later != [] {
      StoredBlocksStay(g, world, ops, later[..|later| - 1]);
      StepKeepsInv(Run(Run(Genesis(g), ops), later[..|later| - 1]), g, world, later[|later| - 1]);
    }
  }

  /** In every run, whatever block is stored next spends only outputs of canonical blocks below it, mature
      and unlocked, and no output twice. */
  lemma SpendsAreSound(g: Block, world: set<Block>, ops: seq<Op>, b: Block, now: nat, t: nat, n: nat)
    requires Sound(world, g) && Drawn(ops, world) && Extends(Run(Genesis(g), ops), b, now)
    requires 0 < t < |b.transactions| && n < |b.transactions[t].inputs|
    ensures
      var c := Run(Genesis(g), ops);
      var tx := b.transactions[t];
      var p := tx.inputs[n].previous;
      && SpendsSoundly(c.utxos, b.height, tx.inputs[n], AllPoints(b.transactions[1..t]) + PointsOf(tx.inputs[..n]))
      && ProvenAt(c, p)
      && (c.utxos[p].isCoinbase ==> c.utxos[p].height + 100 <= b.height)
  {
    hide Run;
    hide Supply;
    RunKeepsInv(g, world, ops);
    var c := Run(Genesis(g), ops);
    var txs := b.transactions[1..];
    assert txs[t - 1] == b.transactions[t] && txs[..t - 1] == b.transactions[1..t];
    CheckedSpend(c.utxos, b.height, txs, {}, t - 1, n);
    assert {} + AllPoints(txs[..t - 1]) == AllPoints(b.transactions[1..t]);
  }
}

/** What the validator checks, without its loops, and what that makes of every stored block. */
module ChainChecks {
  import opened Basics
  import opened ChainStore
  import opened ChainInvariant
  import opened ChainSupply
  import opened ChainRuns
  import opened ChainBatch

  // ---- The validator, condition by condition ----

  /** The values of the outputs the inputs name; those that are not there count nothing. */
  function Worths(u: UtxoSet, inputs: seq<TxInput>): (r: seq<nat>)
    ensures |r| == |inputs|
  {
    seq(|inputs|, n requires 0 <= n < |inputs| => if inputs[n].previous in u then u[inputs[n].previous].value else 0)
  }

  ghost predicate SpendAllSoundly(u: UtxoSet, height: nat, inputs: seq<TxInput>, spent: set<OutPoint>) {
    forall n :: 0 <= n < |inputs| ==> SpendsSoundly(u, height, inputs[n], spent + PointsOf(inputs[..n]))
  }

  lemma SpendSplits(u: UtxoSet, height: nat, inputs: seq<TxInput>, spent: set<OutPoint>)
    requires inputs != []
    ensures
      var i := inputs[0];
      SpendAllSoundly(u, height, inputs, spent) <==>
        SpendsSoundly(u, height, i, spent) && SpendAllSoundly(u, height, inputs[1..], spent + {i.previous})
  {
    var i, rest := inputs[0], inputs[1..];
    assert spent + PointsOf(inputs[..0]) == spent;
    forall n | 0 <= n < |rest|
      ensures spent + {i.previous} + PointsOf(rest[..n]) == spent + PointsOf(inputs[..n + 1])
    {
      assert inputs[..n + 1] == [i] + rest[..n];
    }
    hide SpendsSoundly;
    hide PointsOf;
    if SpendAllSoundly(u, height, inputs, spent) {
      forall n | 0 <= n < |rest|
        ensures SpendsSoundly(u, height, rest[n], spent + {i.previous} + PointsOf(rest[..n]))
      {
        assert rest[n] == inputs[n + 1];
      }
    } else {
      var n :| 0 <= n < |inputs| && !SpendsSoundly(u, height, inputs[n], spent + PointsOf(inputs[..n]));
      assert n > 0 ==> rest[n - 1] == inputs[n];
    }
  }

  lemma CheckInputsStep(u: UtxoSet, height: nat, inputs: seq<TxInput>, spent: set<OutPoint>, total: nat)
    requires inputs != []
    ensures
      var i, rest := inputs[0], inputs[1..];
      CheckInputs(u, height, inputs, spent, total) ==
        if SpendsSoundly(u, height, i, spent)
        then CheckInputs(u, height, rest, spent + {i.previous}, Wrapped(total + u[i.previous].value))
        else None
  {
  }

  function Wrapped(n: nat): (r: nat)
    ensures r < U64
  {
    n % U64
  }

  lemma AddWrapped(a: nat, b: nat)
    ensures Wrapped(Wrapped(a) + b) == Wrapped(a + b) && (a < U64 ==> Wrapped(a) == a)
  {
  }

  lemma PointsStep(inputs: seq<TxInput>, spent: set<OutPoint>)
    requires inputs != []
    ensures spent + {inputs[0].previous} + PointsOf(inputs[1..]) == spent + PointsOf(inputs)
  {
    assert inputs == [inputs[0]] + inputs[1..];
  }

  lemma WorthsStep(u: UtxoSet, inputs: seq<TxInput>)
    requires inputs != [] && inputs[0].previous in u
    ensures Sum(Worths(u, inputs)) == u[inputs[0].previous].value + Sum(Worths(u, inputs[1..]))
  {
    assert Worths(u, inputs)[1..] == Worths(u, inputs[1..]);
  }

  /** The input loop accepts exactly inputs that spend soundly, and adds up what they are worth. */
  lemma {:induction false} CheckInputsIff(u: UtxoSet, height: nat, inputs: seq<TxInput>, spent: set<OutPoint>,
                                          total: nat)
    requires total < U64
    ensures CheckInputs(u, height, inputs, spent, total) ==
            if SpendAllSoundly(u, height, inputs, spent)
            then Some((spent + PointsOf(inputs), Wrapped(total + Sum(Worths(u, inputs)))))
            else None
    decreases |inputs|
  {
    hide *;
    if inputs == [] {
      CheckNoInputs(u, height, spent, total);
    } else {
      var i, rest := inputs[0], inputs[1..];
      SpendSplits(u, height, inputs, spent);
      CheckInputsStep(u, height, inputs, spent, total);
      if SpendsSoundly(u, height, i, spent) {
        assert i.previous in u by { SoundIsThere(u, height, i, spent); }
        var worth := u[i.previous].value;
        CheckInputsIff(u, height, rest, spent + {i.previous}, Wrapped(total + worth));
        PointsStep(inputs, spent);
        WorthsStep(u, inputs);
        AddWrapped(total + worth, Sum(Worths(u, rest)));
      }
    }
  }

  lemma CheckNoInputs(u: UtxoSet, height: nat, spent: set<OutPoint>, total: nat)
    requires total < U64
    ensures CheckInputs(u, height, [], spent, total) ==
            Some((spent + PointsOf([]), Wrapped(total + Sum(Worths(u, [])))))
    ensures SpendAllSoundly(u, height, [], spent)
  {
    assert spent + PointsOf([]) == spent;
  }

  lemma SoundIsThere(u: UtxoSet, height: nat, i: TxInput, spent: set<OutPoint>)
    requires SpendsSoundly(u, height, i, spent)
    ensures i.previous in u
  {
  }

  /** A transaction after the coinbase: it has inputs and outputs, each input spends an output that is there,
      unlocked, mature and not spent before in the block, and the wrapped totals cover the outputs. */
  ghost predicate PaysSoundly(u: UtxoSet, height: nat, tx: Transaction, spent: set<OutPoint>) {
    && tx.inputs != [] && tx.outputs != []
    && SpendAllSoundly(u, height, tx.inputs, spent)
    && Sum(tx.outputs) % 0x1_0000_0000_0000_0000 <= Sum(Worths(u, tx.inputs)) % 0x1_0000_0000_0000_0000
  }

  lemma CheckTransactionIff(u: UtxoSet, height: nat, tx: Transaction, spent: set<OutPoint>)
    ensures CheckTransaction(u, height, tx, spent) ==
            if PaysSoundly(u, height, tx, spent) then Some(spent + PointsOf(tx.inputs)) else None
  {
    CheckInputsIff(u, height, tx.inputs, spent, 0);
    hide SpendAllSoundly;
    hide CheckInputs;
  }

  ghost predicate AllPaySoundly(u: UtxoSet, height: nat, txs: seq<Transaction>, spent: set<OutPoint>) {
    forall t :: 0 <= t < |txs| ==> PaysSoundly(u, height, txs[t], spent + AllPoints(txs[..t]))
  }

  lemma PaySplits(u: UtxoSet, height: nat, txs: seq<Transaction>, spent: set<OutPoint>)
    requires txs != []
    ensures
      AllPaySoundly(u, height, txs, spent) <==>
        && PaysSoundly(u, height, txs[0], spent)
        && AllPaySoundly(u, height, txs[1..], spent + PointsOf(txs[0].inputs))
  {
    var tx, rest := txs[0], txs[1..];
    assert spent + AllPoints(txs[..0]) == spent;
    forall t | 0 <= t < |rest|
      ensures spent + PointsOf(tx.inputs) + AllPoints(rest[..t]) == spent + AllPoints(txs[..t + 1])
    {
      PointsOfPrefix(txs, t + 1);
    }
    hide PaysSoundly;
    hide AllPoints;
    hide PointsOf;
    if AllPaySoundly(u, height, txs, spent) {
      forall t | 0 <= t < |rest|
        ensures PaysSoundly(u, height, rest[t], spent + PointsOf(tx.inputs) + AllPoints(rest[..t]))
      {
        assert rest[t] == txs[t + 1];
      }
    } else {
      var t :| 0 <= t < |txs| && !PaysSoundly(u, height, txs[t], spent + AllPoints(txs[..t]));
      assert t > 0 ==> rest[t - 1] == txs[t];
    }
  }

  lemma {:induction false} CheckTransactionsIff(u: UtxoSet, height: nat, txs: seq<Transaction>, spent: set<OutPoint>)
    ensures CheckTransactions(u, height, txs, spent) <==> AllPaySoundly(u, height, txs, spent)
    decreases |txs|
  {
    if txs != [] {
      PaySplits(u, height, txs, spent);
      CheckTransactionIff(u, height, txs[0], spent);
      hide AllPaySoundly;
      hide CheckTransaction;
      hide PaysSoundly;
      CheckTransactionsIff(u, height, txs[1..], spent + PointsOf(txs[0].inputs));
    }
  }

  /** The first transaction: one input, which names the null outpoint, and outputs of at most the reward. */
  ghost predicate ClaimsReward(tx: Transaction) {
    && |tx.inputs| == 1 && tx.inputs[0].previous == OutPoint(0, 0xFFFF_FFFF)
    && tx.outputs != [] && Sum(tx.outputs) % 0x1_0000_0000_0000_0000 <= 5_000_000_000
  }

  /** What can be seen of a valid block without the chain. */
  ghost predicate WellFormed(b: Block, now: nat) {
    && b.isSealed && b.size <= 1_000_000 && |b.transactions| <= 5000
    && b.timestamp <= now + 7200
    && (b.transactions != [] ==> ClaimsReward(b.transactions[0]))
  }

  /** A block above genesis validates if and only if it is well formed, holds a coinbase, builds on the tip, is
      not older than its parent, and all its other transactions pay soundly, in order. */
  lemma ValidIff(c: Chain, b: Block, now: nat)
    requires b.height > 0
    ensures
      ValidateBlock(c, b, now) <==>
        && WellFormed(b, now) && b.transactions != []
        && b.parent == c.tip.hash && b.height == c.tip.height + 1
        && (b.parent in c.blocks ==> c.blocks[b.parent].timestamp <= b.timestamp)
        && AllPaySoundly(c.utxos, b.height, b.transactions[1..], {})
  {
    if b.transactions != [] {
      CheckTransactionsIff(c.utxos, b.height, b.transactions[1..], {});
      hide AllPaySoundly;
      hide CheckTransactions;
    }
  }

  /** The database itself commits exactly extensions of the tip, and blocks of height 0. */
  lemma CommitIff(c: Chain, b: Block)
    ensures CommitBlock(c, b) ==
            if b.height == 0 || (b.parent == c.tip.hash && b.height == c.tip.height + 1)
            then Some(Store(c, b)) else None
  {
  }

  // ---- Every stored block was checked ----

  function Clock(op: Op): nat
    requires !op.Rollback?
  {
    match op
    case Receive(_, now) => now
    case ReceiveBatch(_, now) => now
    case Mine(_, now) => now
  }

  /** The block was handed over by this operation and was well formed at its time. */
  ghost predicate Offered(op: Op, b: Block) {
    !op.Rollback? && Mentions(op, b) && WellFormed(b, Clock(op)) && (b.height > 0 ==> b.transactions != [])
  }

  lemma ValidIsWellFormed(c: Chain, b: Block, now: nat)
    requires ValidateBlock(c, b, now)
    ensures WellFormed(b, now) && (b.height > 0 ==> b.transactions != [])
  {
    hide CheckTransactions;
  }

  /** One ingest adds at most the given block, and only if it is well formed. */
  lemma IngestAddsChecked(c: Chain, b: Block, now: nat, k: Hash)
    requires k in ProcessSingleBlock(c, b, now).0.blocks
    ensures
      var x := ProcessSingleBlock(c, b, now).0.blocks[k];
      || (k in c.blocks && x == c.blocks[k])
      || (x == b && WellFormed(b, now) && (b.height > 0 ==> b.transactions != []))
  {
    hide ApplyTxs;
    hide WellFormed;
    if ValidateBlock(c, b, now) {
      ValidIsWellFormed(c, b, now);
    }
    hide ValidateBlock;
  }

  lemma {:induction false} BatchAddsChecked(c: Chain, bs: seq<Block>, now: nat, k: Hash)
    requires k in ProcessAll(c, bs, now).0.blocks
    ensures
      var x := ProcessAll(c, bs, now).0.blocks[k];
      || (k in c.blocks && x == c.blocks[k])
      || (x in bs && WellFormed(x, now) && (x.height > 0 ==> x.transactions != []))
    decreases |bs|
  {
    hide ProcessSingleBlock;
    hide WellFormed;
    if bs != [] {
      var d := ProcessSingleBlock(c, bs[0], now).0;
      BatchAddsChecked(d, bs[1..], now, k);
      if k in d.blocks {
        IngestAddsChecked(c, bs[0], now, k);
      }
    }
  }

  lemma MiningAddsChecked(c: Chain, b: Block, now: nat, k: Hash)
    requires k in MineBlock(c, b, now).blocks
    ensures
      var x := MineBlock(c, b, now).blocks[k];
      || (k in c.blocks && x == c.blocks[k])
      || (x == b && WellFormed(b, now) && (b.height > 0 ==> b.transactions != []))
  {
    hide ApplyTxs;
    hide WellFormed;
    if ValidateBlock(c, b, now) {
      ValidIsWellFormed(c, b, now);
    }
    hide ValidateBlock;
  }

  lemma {:induction false} UndoAddsNothing(c: Chain, h: nat, target: nat)
    ensures UndoDownTo(c, h, target).blocks == c.blocks
    decreases h
  {
    if h > target {
      match BlockAt(c, h)
      case None => UndoAddsNothing(c, h - 1, target);
      case Some(b) => UndoAddsNothing(UndoBlock(c, b), h - 1, target);
    }
  }

  lemma StepAddsChecked(c: Chain, op: Op, k: Hash)
    requires k in Step(c, op).blocks
    ensures (k in c.blocks && Step(c, op).blocks[k] == c.blocks[k]) || Offered(op, Step(c, op).blocks[k])
  {
    hide ProcessSingleBlock;
    hide ProcessAll;
    hide MineBlock;
    hide SortByHeight;
    hide UndoDownTo;
    hide WellFormed;
    match op
    case Receive(b, now) => IngestAddsChecked(c, b, now, k);
    case ReceiveBatch(bs, now) =>
      BatchAddsChecked(c, SortByHeight(bs), now, k);
      SortKeepsMembers(bs);
    case Mine(b, now) => MiningAddsChecked(c, b, now, k);
    case Rollback(target) => UndoAddsNothing(c, c.tip.height, target);
  }

  lemma {:induction false} RunAddsChecked(g: Block, ops: seq<Op>, k: Hash)
    requires k in Run(Genesis(g), ops).blocks
    ensures
      var b := Run(Genesis(g), ops).blocks[k];
      b == g || exists n :: 0 <= n < |ops| && Offered(ops[n], b)
  {
    hide Step;
    hide Offered;
    if ops != [] {
      var before := ops[..|ops| - 1];
      var c, b := Run(Genesis(g), before), Run(Genesis(g), ops).blocks[k];
      StepAddsChecked(c, ops[|ops| - 1], k);
      if !Offered(ops[|ops| - 1], b) {
        RunAddsChecked(g, before, k);
        if b != g {
          var n :| 0 <= n < |before| && Offered(before[n], b);
          assert ops[n] == before[n];
        }
      }
    }
  }

  /** In every run, every stored block but genesis was handed over by some operation and, at that operation's
      time, was sealed by its proof of work and Merkle root, at most 1,000,000 bytes long with at most 5000
      transactions, not dated more than two hours ahead, and began with a coinbase of at most the reward. */
  lemma StoredBlocksWereChecked(g: Block, world: set<Block>, ops: seq<Op>, k: Hash)
    requires Sound(world, g) && Drawn(ops, world)
    requires k in Run(Genesis(g), ops).blocks && k != g.hash
    ensures
      var b := Run(Genesis(g), ops).blocks[k];
      exists n :: 0 <= n < |ops| && !ops[n].Rollback? && Mentions(ops[n], b) && WellFormed(b, Clock(ops[n])) &&
                  b.transactions != []
  {
    RunAddsChecked(g, ops, k);
    RunKeepsInv(g, world, ops);
    hide Run;
    hide WellFormed;
    var c := Run(Genesis(g), ops);
    assert RootedAt(c, g, k);
    var n :| 0 <= n < |ops| && Offered(ops[n], c.blocks[k]);
  }

  // ---- Unsealed blocks ----

  /** An unsealed block is refused, and the chain stays as it was. */
  lemma UnsealedIsRefused(c: Chain, b: Block, now: nat)
    requires !b.isSealed
    ensures ProcessSingleBlock(c, b, now) == (c, false) && MineBlock(c, b, now) == c
  {
  }

  function SealedOf(bs: seq<Block>): seq<Block> {
    if bs == [] then []
    else if bs[0].isSealed then [bs[0]] + SealedOf(bs[1..])
    else SealedOf(bs[1..])
  }

  lemma {:induction false} SealedMembers(bs: seq<Block>)
    ensures forall b :: b in SealedOf(bs) <==> b in bs && b.isSealed
  {
    if bs != [] {
      SealedMembers(bs[1..]);
      assert bs == [bs[0]] + bs[1..];
    }
  }

  lemma InsertFirst(b: Block, sorted: seq<Block>)
    requires forall x <- sorted :: b.height <= x.height
    ensures InsertByHeight(b, sorted) == [b] + sorted
  {
  }

  lemma {:induction false} InsertSealed(b: Block, sorted: seq<Block>)
    requires Ascending(sorted)
    ensures SealedOf(InsertByHeight(b, sorted)) ==
            if b.isSealed then InsertByHeight(b, SealedOf(sorted)) else SealedOf(sorted)
  {
    if sorted != [] && b.height > sorted[0].height {
      var tail := InsertByHeight(b, sorted[1..]);
      InsertSealed(b, sorted[1..]);
      assert ([sorted[0]] + tail)[1..] == tail;
      if sorted[0].isSealed {
        assert SealedOf(sorted)[1..] == SealedOf(sorted[1..]);
      }
    } else {
      assert ([b] + sorted)[1..] == sorted;
      SealedMembers(sorted);
      InsertFirst(b, SealedOf(sorted));
    }
  }

  lemma {:induction false} SortSealed(bs: seq<Block>)
    ensures SealedOf(SortByHeight(bs)) == SortByHeight(SealedOf(bs))
  {
    if bs != [] {
      SortSealed(bs[1..]);
      SortSorts(bs[1..]);
      InsertSealed(bs[0], SortByHeight(bs[1..]));
    }
  }

  lemma {:induction false} ProcessSealed(c: Chain, bs: seq<Block>, now: nat)
    ensures ProcessAll(c, bs, now) == ProcessAll(c, SealedOf(bs), now)
    decreases |bs|
  {
    if bs != [] {
      if !bs[0].isSealed {
        UnsealedIsRefused(c, bs[0], now);
      }
      hide ProcessSingleBlock;
      ProcessSealed(ProcessSingleBlock(c, bs[0], now).0, bs[1..], now);
      if bs[0].isSealed {
        assert SealedOf(bs)[1..] == SealedOf(bs[1..]);
      }
    }
  }

  /** A batch with its unsealed blocks struck out leaves the same chain and the same count. */
  lemma UnsealedBlocksDoNotMatter(c: Chain, bs: seq<Block>, now: nat)
    ensures ProcessBlocksBatch(c, bs, now) == ProcessBlocksBatch(c, SealedOf(bs), now)
  {
    ProcessSealed(c, SortByHeight(bs), now);
    SortSealed(bs);
  }

  // ---- The order of a batch ----

  function AtHeight(bs: seq<Block>, h: nat): seq<Block> {
    if bs == [] then []
    else if bs[0].height == h then [bs[0]] + AtHeight(bs[1..], h)
    else AtHeight(bs[1..], h)
  }

  lemma {:induction false} InsertIsStable(b: Block, sorted: seq<Block>, h: nat)
    ensures AtHeight(InsertByHeight(b, sorted), h) ==
            if b.height == h then [b] + AtHeight(sorted, h) else AtHeight(sorted, h)
  {
    if sorted != [] && b.height > sorted[0].height {
      var tail := InsertByHeight(b, sorted[1..]);
      InsertIsStable(b, sorted[1..], h);
      assert ([sorted[0]] + tail)[1..] == tail;
    } else {
      assert ([b] + sorted)[1..] == sorted;
    }
  }

  /** Blocks are processed in order of height, and those of one height in the order they arrived. */
  lemma {:induction false} SortIsStable(bs: seq<Block>, h: nat)
    ensures Ascending(SortByHeight(bs)) && AtHeight(SortByHeight(bs), h) == AtHeight(bs, h)
  {
    SortSorts(bs);
    if bs != [] {
      SortIsStable(bs[1..], h);
      InsertIsStable(bs[0], SortByHeight(bs[1..]), h);
    }
  }
}

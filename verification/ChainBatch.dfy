/** What one sync batch commits, and what a rollback gives back. */
module ChainBatch {
  import opened Basics
  import opened ChainStore
  import opened ChainInvariant
  import opened ChainRuns

  // ---- Sorting ----

  ghost predicate Ascending(bs: seq<Block>) {
    forall m, n :: 0 <= m < n < |bs| ==> bs[m].height <= bs[n].height
  }

  lemma AscendingCons(b: Block, tail: seq<Block>)
    requires Ascending(tail) && forall x <- tail :: b.height <= x.height
    ensures Ascending([b] + tail)
  {
    forall n | 0 <= n < |tail|
      ensures b.height <= tail[n].height
    {
      assert tail[n] in tail;
    }
  }

  lemma {:induction false} InsertSorts(b: Block, sorted: seq<Block>)
    requires Ascending(sorted)
    ensures Ascending(InsertByHeight(b, sorted))
  {
    if sorted != [] && b.height > sorted[0].height {
      InsertSorts(b, sorted[1..]);
      InsertKeepsMembers(b, sorted[1..]);
      AscendingCons(sorted[0], InsertByHeight(b, sorted[1..]));
    } else {
      AscendingCons(b, sorted);
    }
  }

  lemma {:induction false} InsertKeepsAll(b: Block, sorted: seq<Block>)
    ensures multiset(InsertByHeight(b, sorted)) == multiset(sorted) + multiset{b}
  {
    if sorted != [] && b.height > sorted[0].height {
      InsertKeepsAll(b, sorted[1..]);
      assert sorted == [sorted[0]] + sorted[1..];
    }
  }

  lemma {:induction false} SortSorts(bs: seq<Block>)
    ensures Ascending(SortByHeight(bs)) && multiset(SortByHeight(bs)) == multiset(bs)
  {
    if bs != [] {
      SortSorts(bs[1..]);
      InsertSorts(bs[0], SortByHeight(bs[1..]));
      InsertKeepsAll(bs[0], SortByHeight(bs[1..]));
      assert bs == [bs[0]] + bs[1..];
    }
  }

  // ---- Batches ----

  /** Each block validates on the chain that ends with the one before it. */
  ghost predicate ValidExtension(c: Chain, chain: seq<Block>, now: nat)
    decreases |chain|
  {
    chain == [] || (Extends(c, chain[0], now) && ValidExtension(Store(c, chain[0]), chain[1..], now))
  }

  function StoreAll(c: Chain, chain: seq<Block>): Chain
    decreases |chain|
  {
    if chain == [] then c else StoreAll(Store(c, chain[0]), chain[1..])
  }

  /** How many leading blocks of the chain have never been stored. */
  function FreshPrefix(c: Chain, chain: seq<Block>): (n: nat)
    ensures n <= |chain|
    decreases |chain|
  {
    if chain == [] || chain[0].hash in c.blocks then 0 else 1 + FreshPrefix(c, chain[1..])
  }

  ghost predicate DistinctHashes(tip: Hash, chain: seq<Block>) {
    && tip != ZERO_HASH
    && (forall n :: 0 <= n < |chain| ==> chain[n].hash != tip && chain[n].hash != ZERO_HASH)
    && (forall m, n :: 0 <= m < n < |chain| ==> chain[m].hash != chain[n].hash)
  }

  lemma {:induction false} ExtensionLinks(c: Chain, chain: seq<Block>, now: nat, n: nat)
    requires ValidExtension(c, chain, now) && n < |chain|
    ensures chain[n].height == c.tip.height + 1 + n
    ensures chain[n].parent == if n == 0 then c.tip.hash else chain[n - 1].hash
    decreases |chain|
  {
    hide ApplyTxs;
    hide ValidateBlock;
    if n > 0 {
      ExtensionLinks(Store(c, chain[0]), chain[1..], now, n - 1);
    }
  }

  /** A list in which every block is stored already or does not build on the tip changes nothing. */
  lemma {:induction false} NothingToDo(c: Chain, bs: seq<Block>, now: nat)
    requires c.tip.hash != ZERO_HASH
    requires forall b <- bs :: b.hash in c.blocks || b.parent != c.tip.hash
    ensures ProcessAll(c, bs, now) == (c, 0)
    decreases |bs|
  {
    if bs != [] {
      IngestStoresExtensions(c, bs[0], now);
      hide ProcessSingleBlock;
      NothingToDo(c, bs[1..], now);
    }
  }

  lemma LaterBlocksDoNotLink(c: Chain, chain: seq<Block>, now: nat, b: Block)
    requires ValidExtension(c, chain, now) && DistinctHashes(c.tip.hash, chain) && b in chain && b != chain[0]
    ensures b.parent != c.tip.hash
  {
    hide ValidExtension;
    var n :| 0 <= n < |chain| && chain[n] == b;
    ExtensionLinks(c, chain, now, n);
  }

  /** The first block of a sorted list is the first of the chain, if neither is stored yet. */
  lemma SortedStartsWithFirst(c: Chain, chain: seq<Block>, bs: seq<Block>, now: nat)
    requires ValidExtension(c, chain, now) && chain != [] && chain[0].hash !in c.blocks
    requires Ascending(bs) && chain[0] in bs
    requires forall b <- bs :: b.hash in c.blocks || b in chain
    ensures bs != [] && (bs[0].hash !in c.blocks ==> bs[0] == chain[0])
    ensures bs[0] in chain ==> bs[0] == chain[0]
  {
    hide ValidExtension;
    if bs[0] in chain {
      var n :| 0 <= n < |chain| && chain[n] == bs[0];
      var m :| 0 <= m < |bs| && bs[m] == chain[0];
      ExtensionLinks(c, chain, now, n);
      ExtensionLinks(c, chain, now, 0);
    }
  }

  lemma StoreKeepsFreshness(c: Chain, b: Block, chain: seq<Block>)
    requires forall n :: 0 <= n < |chain| ==> chain[n].hash != b.hash
    ensures FreshPrefix(Store(c, b), chain) == FreshPrefix(c, chain)
    decreases |chain|
  {
    hide ApplyTxs;
    if chain != [] {
      StoreKeepsFreshness(c, b, chain[1..]);
    }
  }

  lemma NothingFresh(c: Chain, chain: seq<Block>, bs: seq<Block>, now: nat)
    requires ValidExtension(c, chain, now) && DistinctHashes(c.tip.hash, chain)
    requires forall b <- bs :: b.hash in c.blocks || b in chain
    requires chain == [] || chain[0].hash in c.blocks
    ensures ProcessAll(c, bs, now) == (c, 0)
  {
    hide ValidExtension;
    hide ProcessAll;
    forall b | b in bs
      ensures b.hash in c.blocks || b.parent != c.tip.hash
    {
      if b.hash !in c.blocks {
        LaterBlocksDoNotLink(c, chain, now, b);
      }
    }
    NothingToDo(c, bs, now);
  }

  /** A block that is stored already is passed over. */
  lemma SkipsStored(c: Chain, bs: seq<Block>, now: nat)
    requires bs != [] && bs[0].hash in c.blocks
    ensures ProcessAll(c, bs, now) == ProcessAll(c, bs[1..], now)
  {
  }

  /** A sorted list that holds every block of the chain and otherwise only stored blocks commits the
      chain's fresh prefix and no more. */
  lemma {:induction false} SortedBatch(c: Chain, chain: seq<Block>, bs: seq<Block>, now: nat)
    requires ValidExtension(c, chain, now) && DistinctHashes(c.tip.hash, chain)
    requires Ascending(bs)
    requires forall b <- chain :: b in bs
    requires forall b <- bs :: b.hash in c.blocks || b in chain
    ensures var p := FreshPrefix(c, chain);
            ProcessAll(c, bs, now) == (StoreAll(c, chain[..p]), p)
    decreases |bs|
  {
    if chain == [] || chain[0].hash in c.blocks {
      NothingFresh(c, chain, bs, now);
    } else {
      SortedStartsWithFirst(c, chain, bs, now);
      assert bs == [bs[0]] + bs[1..];
      if bs[0].hash in c.blocks {
        SkipsStored(c, bs, now);
        hide ProcessAll;
        hide ValidExtension;
        SortedBatch(c, chain, bs[1..], now);
      } else {
        hide ProcessAll;
        hide ValidExtension;
        CommitsFirst(c, chain, bs, now);
      }
    }
  }

  /** Once the first block is committed, what is left of the list and the chain meets the same conditions. */
  lemma AfterFirst(c: Chain, chain: seq<Block>, bs: seq<Block>)
    requires DistinctHashes(c.tip.hash, chain) && chain != [] && bs != [] && bs[0] == chain[0]
    requires forall b <- chain :: b in bs
    requires forall b <- bs :: b.hash in c.blocks || b in chain
    ensures DistinctHashes(chain[0].hash, chain[1..])
    ensures forall b <- chain[1..] :: b in bs[1..]
    ensures forall b <- bs[1..] :: b.hash in Store(c, chain[0]).blocks || b in chain[1..]
  {
    hide ApplyTxs;
    var b, rest, tail := chain[0], bs[1..], chain[1..];
    assert bs == [b] + rest && chain == [b] + tail;
    forall n | 0 <= n < |tail|
      ensures tail[n] in rest && tail[n].hash != b.hash
    {
      assert tail[n] == chain[n + 1];
      assert tail[n] in bs;
    }
  }

  lemma CommitsFirst(c: Chain, chain: seq<Block>, bs: seq<Block>, now: nat)
    requires ValidExtension(c, chain, now) && DistinctHashes(c.tip.hash, chain) && Ascending(bs)
    requires forall b <- chain :: b in bs
    requires forall b <- bs :: b.hash in c.blocks || b in chain
    requires chain != [] && bs != [] && bs[0] == chain[0] && chain[0].hash !in c.blocks
    ensures var p := FreshPrefix(c, chain);
            ProcessAll(c, bs, now) == (StoreAll(c, chain[..p]), p)
    decreases |bs|, 0
  {
    hide ApplyTxs;
    hide ValidateBlock;
    IngestStoresExtensions(c, chain[0], now);
    hide ProcessSingleBlock;
    AfterFirst(c, chain, bs);
    FreshAfterFirst(c, chain);
    hide DistinctHashes;
    SortedBatch(Store(c, chain[0]), chain[1..], bs[1..], now);
    var p := FreshPrefix(c, chain);
    assert chain[..p][1..] == chain[1..][..p - 1];
  }

  lemma FreshAfterFirst(c: Chain, chain: seq<Block>)
    requires chain != [] && chain[0].hash !in c.blocks
    requires forall m, n :: 0 <= m < n < |chain| ==> chain[m].hash != chain[n].hash
    ensures FreshPrefix(c, chain) == 1 + FreshPrefix(Store(c, chain[0]), chain[1..])
  {
    forall n | 0 <= n < |chain[1..]|
      ensures chain[1..][n].hash != chain[0].hash
    {
      assert chain[1..][n] == chain[n + 1];
    }
    StoreKeepsFreshness(c, chain[0], chain[1..]);
  }

  /** A batch that lists the blocks of a valid extension of the tip, in any order and with any repetitions,
      commits exactly the blocks up to the first one that was ever stored before, and returns their number;
      delivering it again commits nothing. */
  lemma BatchCommitsFreshPrefix(c: Chain, chain: seq<Block>, bs: seq<Block>, now: nat, again: nat)
    requires ValidExtension(c, chain, now) && DistinctHashes(c.tip.hash, chain)
    requires forall b :: b in bs <==> b in chain
    ensures var p := FreshPrefix(c, chain);
            && ProcessBlocksBatch(c, bs, now) == (StoreAll(c, chain[..p]), p)
            && ProcessBlocksBatch(StoreAll(c, chain[..p]), bs, again) == (StoreAll(c, chain[..p]), 0)
  {
    hide ValidExtension;
    hide ProcessAll;
    hide SortByHeight;
    SortKeepsMembers(bs);
    SortSorts(bs);
    SortedBatch(c, chain, SortByHeight(bs), now);
    var p := FreshPrefix(c, chain);
    var d := StoreAll(c, chain[..p]);
    hide StoreAll;
    hide FreshPrefix;
    forall b | b in SortByHeight(bs)
      ensures b.hash in d.blocks || b.parent != d.tip.hash
    {
      var n :| 0 <= n < |chain| && chain[n] == b;
      AfterBatch(c, chain, now, n);
    }
    AfterBatchTip(c, chain);
    NothingToDo(d, SortByHeight(bs), again);
  }

  lemma {:induction false} AllFresh(c: Chain, chain: seq<Block>)
    requires forall b <- chain :: b.hash !in c.blocks
    ensures FreshPrefix(c, chain) == |chain|
    decreases |chain|
  {
    if chain != [] {
      AllFresh(c, chain[1..]);
    }
  }

  /** If none of its blocks was ever stored, the whole extension is committed and counted, each block once. */
  lemma {:induction false} BatchCommitsWholeChain(c: Chain, chain: seq<Block>, bs: seq<Block>, now: nat)
    requires ValidExtension(c, chain, now) && DistinctHashes(c.tip.hash, chain)
    requires forall b :: b in bs <==> b in chain
    requires forall b <- chain :: b.hash !in c.blocks
    ensures ProcessBlocksBatch(c, bs, now) == (StoreAll(c, chain), |chain|)
  {
    hide ProcessBlocksBatch;
    hide StoreAll;
    hide ValidExtension;
    AllFresh(c, chain);
    BatchCommitsFreshPrefix(c, chain, bs, now, now);
    assert chain[..|chain|] == chain;
  }

  lemma {:induction false} StoreAllFacts(c: Chain, chain: seq<Block>, k: Hash)
    ensures var d := StoreAll(c, chain);
            && (k in d.blocks <==> k in c.blocks || exists n :: 0 <= n < |chain| && chain[n].hash == k)
            && d.tip.hash == if chain == [] then c.tip.hash else chain[|chain| - 1].hash
    decreases |chain|
  {
    hide ApplyTxs;
    if chain != [] {
      StoreAllFacts(Store(c, chain[0]), chain[1..], k);
      assert chain == [chain[0]] + chain[1..];
      if exists n :: 0 <= n < |chain| && chain[n].hash == k {
        var n :| 0 <= n < |chain| && chain[n].hash == k;
        if n > 0 {
          assert chain[1..][n - 1].hash == k;
        }
      }
    }
  }

  lemma {:induction false} FreshPrefixStops(c: Chain, chain: seq<Block>)
    ensures var p := FreshPrefix(c, chain);
            p < |chain| ==> chain[p].hash in c.blocks
    decreases |chain|
  {
    if chain != [] && chain[0].hash !in c.blocks {
      FreshPrefixStops(c, chain[1..]);
    }
  }

  lemma AfterBatchTip(c: Chain, chain: seq<Block>)
    requires DistinctHashes(c.tip.hash, chain)
    ensures StoreAll(c, chain[..FreshPrefix(c, chain)]).tip.hash != ZERO_HASH
  {
    StoreAllFacts(c, chain[..FreshPrefix(c, chain)], 0);
  }

  /** After the batch, each block of the chain is stored or does not build on the new tip. */
  lemma AfterBatch(c: Chain, chain: seq<Block>, now: nat, n: nat)
    requires ValidExtension(c, chain, now) && DistinctHashes(c.tip.hash, chain) && n < |chain|
    ensures var d := StoreAll(c, chain[..FreshPrefix(c, chain)]);
            chain[n].hash in d.blocks || chain[n].parent != d.tip.hash
  {
    hide ValidExtension;
    hide StoreAll;
    var p := FreshPrefix(c, chain);
    FreshPrefixStops(c, chain);
    StoreAllFacts(c, chain[..p], chain[n].hash);
    ExtensionLinks(c, chain, now, n);
    if n < p {
      assert chain[..p][n].hash == chain[n].hash;
    }
  }

  // ---- Undoing a block ----

  /** Undoing a block gives back the outputs it neither spent nor created again, and nothing else. */
  lemma UndoAfterApply(u: UtxoSet, txs: seq<Transaction>, height: nat, p: OutPoint)
    ensures var w := UndoTxs(ApplyTxs(u, txs, height), txs);
            && (p in w <==> p in u && p !in SpentByAll(txs) && p !in CreatedByAll(txs))
            && (p in w ==> w[p] == u[p])
  {
    hide ApplyTxs;
    hide UndoTxs;
    hide SpentByAll;
    hide CreatedByAll;
    AppliedAt(u, txs, height, p);
    UndoneAt(ApplyTxs(u, txs, height), txs, p);
  }

  /** Committing and undoing a list of transactions restores the unspent set if and only if they neither
      spend nor recreate anything in it. */
  lemma UndoRestoresIff(u: UtxoSet, txs: seq<Transaction>, height: nat)
    ensures UndoTxs(ApplyTxs(u, txs, height), txs) == u <==>
            u.Keys !! SpentByAll(txs) && u.Keys !! CreatedByAll(txs)
  {
    hide ApplyTxs;
    hide UndoTxs;
    hide SpentByAll;
    hide CreatedByAll;
    var w := UndoTxs(ApplyTxs(u, txs, height), txs);
    forall p
      ensures p in w <==> p in u && p !in SpentByAll(txs) && p !in CreatedByAll(txs)
      ensures p in w ==> w[p] == u[p]
    {
      UndoAfterApply(u, txs, height, p);
    }
    if u.Keys !! SpentByAll(txs) && u.Keys !! CreatedByAll(txs) {
      assert w == u;
    } else {
      var p :| p in u && (p in SpentByAll(txs) || p in CreatedByAll(txs));
      assert p !in w;
    }
  }

  /** For a block valid on the chain, undoing its commit restores the unspent set if and only if it holds
      nothing but its coinbase, whose outputs were not there before. */
  lemma UndoRestoresValidBlockIff(c: Chain, b: Block, now: nat)
    requires Extends(c, b, now) && COINBASE_OUTPOINT !in c.utxos
    ensures UndoTxs(Store(c, b).utxos, b.transactions) == c.utxos <==>
            |b.transactions| == 1 && c.utxos.Keys !! CreatedBy(b.transactions[0])
  {
    var txs := b.transactions;
    UndoRestoresIff(c.utxos, txs, b.height);
    hide ApplyTxs;
    hide UndoTxs;
    if |txs| == 1 {
      assert txs == [txs[0]];
      assert SpentByAll(txs) == {};
      assert CreatedByAll(txs) == CreatedBy(txs[0]);
    } else {
      SecondTransactionSpends(c.utxos, b.height, txs);
    }
  }

  lemma SecondTransactionSpends(u: UtxoSet, height: nat, txs: seq<Transaction>)
    requires |txs| > 1 && CheckTransactions(u, height, txs[1..], {}) && COINBASE_OUTPOINT !in u
    ensures u.Keys * SpentByAll(txs) != {}
  {
    var tx := txs[1];
    assert txs[1..][0] == tx && tx in txs;
    var p := tx.inputs[0].previous;
    assert p in u && p in SpentBy(tx);
    assert p in SpentByAll(txs);
  }

  /** Blocks taken off the canonical chain by a rollback are still stored, so delivering them again, in any
      batch, commits none of them. */
  lemma RolledBackBlocksAreRefused(c: Chain, g: Block, world: set<Block>, target: nat, bs: seq<Block>, now: nat)
    requires Sound(world, g) && Inv(c, g, world)
    requires forall b <- bs :: exists h: nat :: target < h <= c.tip.height && BlockAt(c, h) == Some(b)
    ensures ProcessBlocksBatch(RollbackTo(c, target), bs, now) == (RollbackTo(c, target), 0)
  {
    RollbackKeepsInv(c, g, world, target);
    var d := RollbackTo(c, target);
    hide RollbackTo;
    TipIsNotZero(d, g, world);
    SortKeepsMembers(bs);
    forall b | b in SortByHeight(bs)
      ensures b.hash in d.blocks
    {
      var h: nat :| target < h <= c.tip.height && BlockAt(c, h) == Some(b);
      assert LinkedAt(c, h);
    }
    NothingToDo(d, SortByHeight(bs), now);
  }

  // ---- Rolling back a whole extension ----

  function SpentInChain(chain: seq<Block>): set<OutPoint> {
    set b, p | b in chain && p in SpentByAll(b.transactions) :: p
  }

  function CreatedInChain(chain: seq<Block>): set<OutPoint> {
    set b, p | b in chain && p in CreatedByAll(b.transactions) :: p
  }

  /** An output that the chain does not create is there afterwards exactly if it was there and is not spent. */
  lemma {:induction false} StoredAllAt(c: Chain, chain: seq<Block>, p: OutPoint)
    requires p !in CreatedInChain(chain)
    ensures var w := StoreAll(c, chain).utxos;
            && (p in w <==> p in c.utxos && p !in SpentInChain(chain))
            && (p in w ==> w[p] == c.utxos[p])
    decreases |chain|
  {
    if chain != [] {
      var b, rest := chain[0], chain[1..];
      hide ApplyTxs;
      assert chain == [b] + rest;
      assert p !in CreatedByAll(b.transactions) && p !in CreatedInChain(rest);
      assert p in SpentInChain(chain) <==> p in SpentByAll(b.transactions) || p in SpentInChain(rest);
      hide SpentByAll;
      hide CreatedByAll;
      AppliedAt(c.utxos, b.transactions, b.height, p);
      StoredAllAt(Store(c, b), rest, p);
    }
  }

  /** After storing an extension, the height index above the old tip is the extension. */
  lemma {:induction false} StoredAllIndex(c: Chain, chain: seq<Block>, now: nat, h: nat)
    requires ValidExtension(c, chain, now) && DistinctHashes(c.tip.hash, chain)
    ensures var d := StoreAll(c, chain);
            && d.tip.height == c.tip.height + |chain|
            && (h > d.tip.height ==> (h in d.heights <==> h in c.heights))
            && (h <= c.tip.height ==> (h in d.heights <==> h in c.heights))
            && (h <= c.tip.height && h in c.heights ==> d.heights[h] == c.heights[h])
            && (c.tip.height < h <= d.tip.height ==> BlockAt(d, h) == Some(chain[h - c.tip.height - 1]))
    decreases |chain|
  {
    hide ApplyTxs;
    hide ValidateBlock;
    hide DistinctHashes;
    if chain != [] {
      var b, rest := chain[0], chain[1..];
      DistinctTail(c.tip.hash, chain);
      StoredAllIndex(Store(c, b), rest, now, h);
      if h == c.tip.height + 1 {
        KeptUnderHash(Store(c, b), rest, b.hash);
      }
    }
  }

  lemma DistinctTail(tip: Hash, chain: seq<Block>)
    requires DistinctHashes(tip, chain) && chain != []
    ensures DistinctHashes(chain[0].hash, chain[1..])
    ensures forall n :: 0 <= n < |chain[1..]| ==> chain[1..][n].hash != chain[0].hash
  {
    assert forall n :: 0 <= n < |chain[1..]| ==> chain[1..][n] == chain[n + 1];
  }

  /** A block is not replaced by blocks with other hashes. */
  lemma {:induction false} KeptUnderHash(c: Chain, chain: seq<Block>, k: Hash)
    requires k in c.blocks && forall n :: 0 <= n < |chain| ==> chain[n].hash != k
    ensures k in StoreAll(c, chain).blocks && StoreAll(c, chain).blocks[k] == c.blocks[k]
    decreases |chain|
  {
    hide ApplyTxs;
    if chain != [] {
      KeptUnderHash(Store(c, chain[0]), chain[1..], k);
    }
  }

  /** What rolling back an extension leaves at an outpoint. */
  lemma RolledBackAt(c: Chain, chain: seq<Block>, now: nat, p: OutPoint)
    requires ValidExtension(c, chain, now) && DistinctHashes(c.tip.hash, chain)
    ensures var w := UndoDownTo(StoreAll(c, chain), StoreAll(c, chain).tip.height, c.tip.height).utxos;
            && (p in w <==> p in c.utxos && p !in SpentInChain(chain) && p !in CreatedInChain(chain))
            && (p in w ==> w[p] == c.utxos[p])
  {
    hide ValidExtension;
    hide DistinctHashes;
    hide StoreAll;
    hide CreatedByAll;
    hide SpentByAll;
    hide UndoDownTo;
    var d, target := StoreAll(c, chain), c.tip.height;
    StoredAllIndex(c, chain, now, 0);
    forall k: nat | target < k <= d.tip.height
      ensures k in d.heights && d.heights[k] in d.blocks && d.blocks[d.heights[k]] == chain[k - target - 1]
      ensures chain[k - target - 1].height == k
    {
      StoredAllIndex(c, chain, now, k);
      ExtensionLinks(c, chain, now, k - target - 1);
    }
    UndoKeepsOutputs(d, d.tip.height, target, p);
    if p in CreatedInChain(chain) {
      var b :| b in chain && p in CreatedByAll(b.transactions);
      var n :| 0 <= n < |chain| && chain[n] == b;
      assert d.blocks[d.heights[target + 1 + n]] == chain[n];
    } else {
      StoredAllAt(c, chain, p);
      forall k: nat | target < k <= d.tip.height
        ensures p !in CreatedByAll(d.blocks[d.heights[k]].transactions)
      {
        assert chain[k - target - 1] in chain;
      }
    }
  }

  /** Rolling an extension of any length back to where it started restores the unspent set if and only if no
      transaction of it spends or recreates an output of that set. Outputs created and spent within the
      extension do no harm. */
  lemma RollbackRestoresIff(c: Chain, chain: seq<Block>, now: nat)
    requires ValidExtension(c, chain, now) && DistinctHashes(c.tip.hash, chain)
    ensures RollbackTo(StoreAll(c, chain), c.tip.height).utxos == c.utxos <==>
            c.utxos.Keys !! SpentInChain(chain) && c.utxos.Keys !! CreatedInChain(chain)
  {
    var w := RollbackTo(StoreAll(c, chain), c.tip.height).utxos;
    StoredAllIndex(c, chain, now, 0);
    assert chain != [] ==> w == UndoDownTo(StoreAll(c, chain), StoreAll(c, chain).tip.height, c.tip.height).utxos;
    forall p
      ensures p in w <==> p in c.utxos && p !in SpentInChain(chain) && p !in CreatedInChain(chain)
      ensures p in w ==> w[p] == c.utxos[p]
    {
      RolledBackAt(c, chain, now, p);
    }
    hide RollbackTo;
    hide StoreAll;
    hide ValidExtension;
    hide SpentInChain;
    hide CreatedInChain;
    if c.utxos.Keys !! SpentInChain(chain) && c.utxos.Keys !! CreatedInChain(chain) {
      assert w == c.utxos;
    } else {
      var p :| p in c.utxos && (p in SpentInChain(chain) || p in CreatedInChain(chain));
      assert p !in w;
    }
  }

  /** The tip and the height index, by contrast, always come back. */
  lemma RollbackRestoresIndex(c: Chain, g: Block, world: set<Block>, chain: seq<Block>, now: nat)
    requires Canonical(c, g) && Rooted(c, g, world)
    requires ValidExtension(c, chain, now) && DistinctHashes(c.tip.hash, chain)
    requires forall b <- chain :: b.hash !in c.blocks
    ensures var r := RollbackTo(StoreAll(c, chain), c.tip.height);
            r.tip == c.tip && r.heights == c.heights
  {
    hide ValidExtension;
    hide DistinctHashes;
    hide StoreAll;
    hide UndoDownTo;
    var d, target := StoreAll(c, chain), c.tip.height;
    StoredAllIndex(c, chain, now, 0);
    assert LinkedAt(c, target);
    if chain == [] {
      assert d == c by { StoreNothing(c); }
    } else {
      forall k: nat
        ensures k in d.heights <==> k <= d.tip.height
        ensures k in d.heights && k <= target ==> d.heights[k] == c.heights[k]
        ensures k in d.heights ==> d.heights[k] in d.blocks && d.blocks[d.heights[k]].height == k
      {
        StoredAllIndex(c, chain, now, k);
        if k <= target {
          assert LinkedAt(c, k);
          KeptUnderHash(c, chain, c.heights[k]);
        } else if k <= d.tip.height {
          ExtensionLinks(c, chain, now, k - target - 1);
        }
      }
      KeptUnderHash(c, chain, c.tip.hash);
      UndoKeepsBlocks(d, d.tip.height, target);
    }
  }

  lemma StoreNothing(c: Chain)
    ensures StoreAll(c, []) == c
  {
  }
}

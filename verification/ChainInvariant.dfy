/** The shape of the stored blocks after any run of ingest, mining and rollback. */
module ChainInvariant {
  import opened Basics
  import opened ChainStore

  ghost predicate CollisionFree(world: set<Block>) {
    forall a, b :: a in world && b in world && a.hash == b.hash ==> a == b
  }

  ghost predicate Encodable(b: Block) {
    forall tx <- b.transactions :: |tx.outputs| <= b.size
  }

  /** The blocks a run may meet. Hashing is taken to be collision-free on them and never zero, and an encoded
      block is at least as long as each of its output lists. */
  ghost predicate Sound(world: set<Block>, g: Block) {
    && g in world && g.height == 0
    && CollisionFree(world)
    && (forall b <- world :: b.hash != ZERO_HASH && Encodable(b))
  }

  ghost predicate LinkedAt(c: Chain, h: nat) {
    && h in c.heights && c.heights[h] in c.blocks && c.blocks[c.heights[h]].height == h
    && (h > 0 ==> h - 1 in c.heights && c.blocks[c.heights[h]].parent == c.heights[h - 1])
  }

  /** The height index is exactly the path from genesis to the tip. */
  ghost predicate Canonical(c: Chain, g: Block) {
    && (forall h: nat :: h in c.heights <==> h <= c.tip.height)
    && c.heights[0] == g.hash && c.heights[c.tip.height] == c.tip.hash
    && (forall h: nat :: h <= c.tip.height ==> LinkedAt(c, h))
  }

  ghost predicate RootedAt(c: Chain, g: Block, k: Hash)
    requires k in c.blocks
  {
    var b := c.blocks[k];
    k != g.hash ==>
      && b.parent in c.blocks && c.blocks[b.parent].height + 1 == b.height
      && c.blocks[b.parent].timestamp <= b.timestamp
  }

  /** Every stored block but genesis sits one above a stored parent that is not younger. */
  ghost predicate Rooted(c: Chain, g: Block, world: set<Block>) {
    && g.hash in c.blocks && c.blocks[g.hash] == g
    && (forall k <- c.blocks :: c.blocks[k].hash == k && c.blocks[k] in world)
    && (forall k :: k in c.blocks ==> RootedAt(c, g, k))
  }

  /** A block the ingest path and the miner agree to store. */
  ghost predicate Extends(c: Chain, b: Block, now: nat) {
    b.parent == c.tip.hash && b.height == c.tip.height + 1 && ValidateBlock(c, b, now)
  }

  lemma IngestStoresExtensions(c: Chain, b: Block, now: nat)
    requires c.tip.hash != ZERO_HASH
    ensures var (d, committed) := ProcessSingleBlock(c, b, now);
            && committed == (b.hash !in c.blocks && Extends(c, b, now))
            && d == if committed then Store(c, b) else c
  {
  }

  lemma MiningStoresExtensions(c: Chain, b: Block, now: nat)
    ensures MineBlock(c, b, now) == if Extends(c, b, now) then Store(c, b) else c
  {
  }

  /** No stored block is ever replaced by a different one. */
  lemma StoreKeepsBlocks(c: Chain, g: Block, world: set<Block>, b: Block)
    requires CollisionFree(world) && Rooted(c, g, world) && b in world
    ensures forall k <- c.blocks :: Store(c, b).blocks[k] == c.blocks[k]
  {
    if b.hash in c.blocks {
      assert c.blocks[b.hash] == b;
    }
  }

  lemma StoreKeepsCanonical(c: Chain, g: Block, b: Block)
    requires Canonical(c, g) && b.parent == c.tip.hash && b.height == c.tip.height + 1
    requires forall k <- c.blocks :: Store(c, b).blocks[k] == c.blocks[k]
    ensures Canonical(Store(c, b), g)
  {
    var d := Store(c, b);
    forall h: nat | h <= d.tip.height
      ensures LinkedAt(d, h)
    {
      if h < d.tip.height {
        assert LinkedAt(c, h);
      }
    }
  }

  lemma StoreKeepsRooted(c: Chain, g: Block, world: set<Block>, b: Block, now: nat)
    requires Canonical(c, g) && Rooted(c, g, world) && b in world && Extends(c, b, now)
    requires forall k <- c.blocks :: Store(c, b).blocks[k] == c.blocks[k]
    ensures Rooted(Store(c, b), g, world)
  {
    var d := Store(c, b);
    assert LinkedAt(c, c.tip.height);
    forall k | k in d.blocks
      ensures RootedAt(d, g, k)
    {
      if k in c.blocks {
        assert RootedAt(c, g, k);
      }
    }
  }

  // ---- Rollback ----

  /** What undoing leaves of the height index, and that it stores and forgets no block. */
  lemma {:induction false} UndoKeepsBlocks(c: Chain, h: nat, target: nat)
    requires forall k <- c.heights :: c.heights[k] in c.blocks && c.blocks[c.heights[k]].height == k
    ensures var d := UndoDownTo(c, h, target);
            && d.blocks == c.blocks && d.tip == c.tip
            && (forall k :: k in d.heights <==> k in c.heights && !(target < k <= h))
            && (forall k <- d.heights :: d.heights[k] == c.heights[k])
    decreases h
  {
    if h > target {
      match BlockAt(c, h)
      case None => UndoKeepsBlocks(c, h - 1, target);
      case Some(b) => UndoKeepsBlocks(UndoBlock(c, b), h - 1, target);
    }
  }

  lemma RollbackKeepsShape(c: Chain, g: Block, world: set<Block>, target: nat)
    requires Canonical(c, g) && Rooted(c, g, world)
    ensures var d := RollbackTo(c, target);
            && Canonical(d, g) && Rooted(d, g, world) && d.blocks == c.blocks
            && (target < c.tip.height ==> d.tip == Tip(target, c.heights[target]))
            && (forall h <- d.heights :: d.heights[h] == c.heights[h])
  {
    if target < c.tip.height {
      forall h | h in c.heights
        ensures c.heights[h] in c.blocks && c.blocks[c.heights[h]].height == h
      {
        assert LinkedAt(c, h);
      }
      UndoKeepsBlocks(c, c.tip.height, target);
      var d := RollbackTo(c, target);
      assert LinkedAt(c, target);
      forall h: nat | h <= d.tip.height
        ensures LinkedAt(d, h)
      {
        assert LinkedAt(c, h);
      }
      forall k | k in d.blocks
        ensures RootedAt(d, g, k)
      {
        assert RootedAt(c, g, k);
      }
    }
  }

  // ---- Ancestry ----

  /** Follow parent hashes n times. */
  function Ancestor(c: Chain, k: Hash, n: nat): Option<Hash>
    decreases n
  {
    if n == 0 then Some(k)
    else if k !in c.blocks then None
    else Ancestor(c, c.blocks[k].parent, n - 1)
  }

  /** Every stored block, canonical or abandoned, is as many parent links above genesis as its height says. */
  lemma {:induction false} ReachesGenesis(c: Chain, g: Block, world: set<Block>, k: Hash)
    requires Rooted(c, g, world) && g.height == 0 && k in c.blocks
    ensures Ancestor(c, k, c.blocks[k].height) == Some(g.hash)
    decreases c.blocks[k].height
  {
    assert RootedAt(c, g, k);
    if k != g.hash {
      ReachesGenesis(c, g, world, c.blocks[k].parent);
    }
  }

  /** The canonical block at height h is the ancestor of the tip that many links down. */
  lemma {:induction false} CanonicalIsAncestry(c: Chain, g: Block, h: nat, top: nat)
    requires Canonical(c, g) && h <= top <= c.tip.height
    ensures Ancestor(c, c.heights[top], top - h) == Some(c.heights[h])
    decreases top
  {
    assert LinkedAt(c, top);
    if h < top {
      CanonicalIsAncestry(c, g, h, top - 1);
    }
  }
}

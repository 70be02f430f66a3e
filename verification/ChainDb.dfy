/** The chain database as the node keeps it: column families updated in place. */
module ChainDb {
  import opened Basics
  import opened ChainStore

  class Db {
    var blocks: map<Hash, Block>
    var heights: map<nat, Hash>
    var utxos: UtxoSet
    var tip: Tip

    function Contents(): Chain
      reads this
    {
      Chain(blocks, heights, utxos, tip)
    }

    constructor (genesis: Block)
      ensures Contents() == Genesis(genesis)
    {
      blocks, heights, utxos := map[genesis.hash := genesis], map[0 := genesis.hash], map[];
      tip := Tip(0, genesis.hash);
    }

    method SpendInputs(tx: Transaction)
      modifies `utxos
      ensures utxos == old(utxos) - SpentBy(tx)
    {
      for n := 0 to |tx.inputs|
        invariant utxos == old(utxos) - SpentBy(tx.(inputs := tx.inputs[..n]))
      {
        var p := tx.inputs[n].previous;
        assert tx.inputs[..n + 1] == tx.inputs[..n] + [tx.inputs[n]];
        if p != COINBASE_OUTPOINT {
          utxos := utxos - {p};
        }
      }
      assert tx.inputs[..|tx.inputs|] == tx.inputs;
    }

    method AddOutputs(tx: Transaction, height: nat)
      modifies `utxos
      ensures utxos == old(utxos) + Outputs(tx, height)
    {
      for v := 0 to |tx.outputs|
        invariant utxos.Keys == old(utxos).Keys + set i: nat | i < v :: OutPoint(tx.txid, i)
        invariant forall p <- utxos ::
                    utxos[p] == if p.txid == tx.txid && p.vout < v
                                then Utxo(tx.outputs[p.vout], height, IsCoinbase(tx)) else old(utxos)[p]
      {
        utxos := utxos[OutPoint(tx.txid, v) := Utxo(tx.outputs[v], height, IsCoinbase(tx))];
      }
    }

    /** Delete the spent outputs, then put the new ones. */
    method ApplyTransaction(tx: Transaction, height: nat)
      modifies `utxos
      ensures utxos == ApplyTx(old(utxos), tx, height)
    {
      SpendInputs(tx);
      AddOutputs(tx, height);
    }

    method CommitBlock(b: Block) returns (ok: bool)
      modifies this
      ensures ok == ChainStore.CommitBlock(old(Contents()), b).Some?
      ensures Contents() == if ok then ChainStore.CommitBlock(old(Contents()), b).value else old(Contents())
    {
      if b.height > 0 && b.parent != tip.hash {
        return false;
      }
      if b.height != tip.height + 1 && b.height != 0 {
        return false;
      }
      blocks := blocks[b.hash := b];
      heights := heights[b.height := b.hash];
      for n := 0 to |b.transactions|
        invariant blocks == old(blocks)[b.hash := b] && heights == old(heights)[b.height := b.hash] && tip == old(tip)
        invariant ApplyTxs(utxos, b.transactions[n..], b.height) == ApplyTxs(old(utxos), b.transactions, b.height)
      {
        ApplyTransaction(b.transactions[n], b.height);
        assert b.transactions[n..][1..] == b.transactions[n + 1..];
      }
      tip := Tip(b.height, b.hash);
      return true;
    }

    /** The input loop, collecting what the block has spent so far. */
    method ValidateTransaction(tx: Transaction, height: nat, spentInBlock: set<OutPoint>)
      returns (r: Option<set<OutPoint>>)
      ensures r == CheckTransaction(utxos, height, tx, spentInBlock)
    {
      if tx.inputs == [] || tx.outputs == [] {
        return None;
      }
      var spent := spentInBlock;
      var total: nat := 0;
      for n := 0 to |tx.inputs|
        invariant CheckInputs(utxos, height, tx.inputs[n..], spent, total) ==
                  CheckInputs(utxos, height, tx.inputs, spentInBlock, 0)
      {
        assert tx.inputs[n..][1..] == tx.inputs[n + 1..];
        var p := tx.inputs[n].previous;
        if p in spent || p !in utxos || !IsMature(utxos[p], height) {
          return None;
        }
        total := (total + utxos[p].value) % U64;
        spent := spent + {p};
        if !tx.inputs[n].unlocks {
          return None;
        }
      }
      return if total < TotalOutput(tx) then None else Some(spent);
    }

    method ValidateBlock(b: Block, now: nat) returns (ok: bool)
      ensures ok == ChainStore.ValidateBlock(Contents(), b, now)
    {
      if !StructureOk(b) || !b.isSealed || !ChainLinkOk(Contents(), b) || !TimestampOk(Contents(), b, now) {
        return false;
      }
      if b.transactions == [] {
        return true;
      }
      if !CheckCoinbase(b.transactions[0]) {
        return false;
      }
      var spent: set<OutPoint> := {};
      for n := 1 to |b.transactions|
        invariant CheckTransactions(utxos, b.height, b.transactions[n..], spent) ==
                  CheckTransactions(utxos, b.height, b.transactions[1..], {})
      {
        assert b.transactions[n..][1..] == b.transactions[n + 1..];
        var r := ValidateTransaction(b.transactions[n], b.height, spent);
        if r.None? {
          return false;
        }
        spent := r.value;
      }
      return true;
    }

    method ProcessSingleBlock(b: Block, now: nat) returns (committed: bool)
      modifies this
      ensures (Contents(), committed) == ChainStore.ProcessSingleBlock(old(Contents()), b, now)
    {
      if b.hash in blocks {
        return false;
      }
      if b.parent != tip.hash {
        if b.height <= tip.height {
          return false;
        }
        if b.parent !in blocks {
          return false;
        }
      }
      var valid := ValidateBlock(b, now);
      if !valid {
        return false;
      }
      committed := CommitBlock(b);
    }

    method ProcessBlocksBatch(bs: seq<Block>, now: nat) returns (processed: nat)
      modifies this
      ensures (Contents(), processed) == ChainStore.ProcessBlocksBatch(old(Contents()), bs, now)
    {
      var sorted := SortByHeight(bs);
      processed := 0;
      for n := 0 to |sorted|
        invariant var (c, rest) := ProcessAll(Contents(), sorted[n..], now);
                  ProcessAll(old(Contents()), sorted, now) == (c, processed + rest)
      {
        assert sorted[n..][1..] == sorted[n + 1..];
        var committed := ProcessSingleBlock(sorted[n], now);
        if committed {
          processed := processed + 1;
        }
      }
    }

    /** The miner's last steps: a block built on the tip is validated and committed. */
    method MineBlock(b: Block, now: nat) returns (mined: bool)
      requires b.parent == tip.hash && b.height == tip.height + 1
      modifies this
      ensures Contents() == ChainStore.MineBlock(old(Contents()), b, now)
      ensures mined == ChainStore.ValidateBlock(old(Contents()), b, now)
    {
      mined := ValidateBlock(b, now);
      if mined {
        mined := CommitBlock(b);
      }
    }

    method UndoBlock(b: Block)
      modifies `heights, `utxos
      ensures Contents() == ChainStore.UndoBlock(old(Contents()), b)
    {
      heights := heights - {b.height};
      assert b.transactions[..|b.transactions|] == b.transactions;
      for n := |b.transactions| downto 0
        invariant heights == old(heights) - {b.height}
        invariant UndoTxs(utxos, b.transactions[..n]) == UndoTxs(old(utxos), b.transactions)
      {
        var tx := b.transactions[n];
        assert b.transactions[..n + 1][..n] == b.transactions[..n];
        ghost var before := utxos;
        for v := 0 to |tx.outputs|
          invariant heights == old(heights) - {b.height}
          invariant utxos == before - (set i: nat | i < v :: OutPoint(tx.txid, i))
        {
          utxos := utxos - {OutPoint(tx.txid, v)};
        }
        assert utxos == before - CreatedBy(tx);
      }
    }

    method RollbackTo(target: nat)
      modifies `heights, `utxos, `tip
      ensures Contents() == ChainStore.RollbackTo(old(Contents()), target)
    {
      if target >= tip.height {
        return;
      }
      var h := tip.height;
      while h > target
        invariant target <= h && tip == old(tip) && blocks == old(blocks)
        invariant UndoDownTo(Contents(), h, target) == UndoDownTo(old(Contents()), old(tip.height), target)
      {
        var b := BlockAt(Contents(), h);
        if b.Some? {
          UndoBlock(b.value);
        }
        h := h - 1;
      }
      var b := BlockAt(Contents(), target);
      if b.Some? {
        tip := Tip(target, b.value.hash);
      }
    }
  }
}

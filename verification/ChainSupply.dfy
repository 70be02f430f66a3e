/** Conservation of value: what the unspent outputs are worth, and how one block changes it. */
module ChainSupply {
  import opened Basics
  import opened ChainStore

  ghost function Pick(u: UtxoSet): (p: OutPoint)
    requires |u| > 0
    ensures p in u
  {
    var p :| p in u;
    p
  }

  /** The total value of an unspent-output set. */
  ghost function Supply(u: UtxoSet): nat
    decreases |u|
  {
    if |u| == 0 then 0
    else
      Shrinks(u, Pick(u));
      u[Pick(u)].value + Supply(u - {Pick(u)})
  }

  lemma Shrinks(u: UtxoSet, p: OutPoint)
    requires p in u
    ensures |u - {p}| == |u| - 1
  {
    assert (u - {p}).Keys == u.Keys - {p};
    assert |u.Keys| == |u| && |(u - {p}).Keys| == |u - {p}|;
  }

  lemma SupplyUnfold(u: UtxoSet)
    requires |u| > 0
    ensures Supply(u) == u[Pick(u)].value + Supply(u - {Pick(u)})
  {
  }

  lemma SupplyEmpty(u: UtxoSet)
    requires |u| == 0
    ensures Supply(u) == 0 && u == map[]
  {
    assert u.Keys == {};
  }

  /** Which output is counted first does not matter. */
  lemma {:induction false} SupplySplit(u: UtxoSet, p: OutPoint)
    requires p in u
    ensures Supply(u) == u[p].value + Supply(u - {p})
    decreases |u|
  {
    hide Supply;
    Shrinks(u, p);
    SupplyUnfold(u);
    var q := Pick(u);
    if q != p {
      Shrinks(u, q);
      SupplySplit(u - {q}, p);
      SupplySplit(u - {p}, q);
      assert u - {q} - {p} == u - {p} - {q};
    }
  }

  lemma {:induction false} SupplyMonotone(u: UtxoSet, w: UtxoSet)
    requires forall p <- u :: p in w && w[p] == u[p]
    ensures Supply(u) <= Supply(w)
    decreases |u|
  {
    hide Supply;
    if |u| == 0 {
      SupplyEmpty(u);
    } else {
      var p :| p in u;
      Shrinks(u, p);
      SupplySplit(u, p);
      SupplySplit(w, p);
      SupplyMonotone(u - {p}, w - {p});
    }
  }

  lemma RemoveFromBoth(u: UtxoSet, w: UtxoSet, p: OutPoint)
    requires p in w
    ensures p in u + w && (u + w)[p] == w[p]
    ensures u + w - {p} == (u - {p}) + (w - {p})
  {
  }

  /** Adding outputs adds at most their value, and exactly their value when none was there before. */
  lemma {:induction false} SupplyAdd(u: UtxoSet, w: UtxoSet)
    ensures Supply(u + w) <= Supply(u) + Supply(w)
    ensures u.Keys !! w.Keys ==> Supply(u + w) == Supply(u) + Supply(w)
    decreases |w|
  {
    hide Supply;
    if |w| == 0 {
      SupplyEmpty(w);
      assert u + w == u;
    } else {
      var p :| p in w;
      Shrinks(w, p);
      SupplySplit(w, p);
      RemoveFromBoth(u, w, p);
      SupplySplit(u + w, p);
      SupplyAdd(u - {p}, w - {p});
      SupplyWithout(u, p);
      assert u.Keys !! w.Keys ==> (u - {p}).Keys !! (w - {p}).Keys;
    }
  }

  lemma SupplyWithout(u: UtxoSet, p: OutPoint)
    ensures Supply(u - {p}) <= Supply(u)
    ensures p !in u ==> Supply(u - {p}) == Supply(u)
  {
    hide Supply;
    if p in u {
      SupplySplit(u, p);
    } else {
      assert u - {p} == u;
    }
  }

  function Only(u: UtxoSet, ps: set<OutPoint>): UtxoSet {
    map p | p in u && p in ps :: u[p]
  }

  lemma SupplyPartition(u: UtxoSet, ps: set<OutPoint>)
    ensures Supply(u) == Supply(u - ps) + Supply(Only(u, ps))
  {
    hide Supply;
    SupplyAdd(u - ps, Only(u, ps));
    assert (u - ps) + Only(u, ps) == u;
  }

  // ---- Transactions ----

  function PointsOf(inputs: seq<TxInput>): set<OutPoint> {
    set i | i in inputs :: i.previous
  }

  /** Outputs numbered from `from` on. */
  function OutputsFrom(tx: Transaction, height: nat, from: nat): UtxoSet
    requires from <= |tx.outputs|
  {
    map p | p in CreatedBy(tx) && from <= p.vout :: Utxo(tx.outputs[p.vout], height, IsCoinbase(tx))
  }

  lemma {:induction false} OutputsWorth(tx: Transaction, height: nat, from: nat)
    requires from <= |tx.outputs|
    ensures Supply(OutputsFrom(tx, height, from)) == Sum(tx.outputs[from..])
    decreases |tx.outputs| - from
  {
    hide Supply;
    var u := OutputsFrom(tx, height, from);
    if from == |tx.outputs| {
      assert u == map[];
      SupplyEmpty(u);
    } else {
      var p := OutPoint(tx.txid, from);
      assert p in CreatedBy(tx);
      SupplySplit(u, p);
      assert u - {p} == OutputsFrom(tx, height, from + 1);
      OutputsWorth(tx, height, from + 1);
    }
  }

  /** Inputs that pass the checks are unspent, distinct from each other and from those spent before,
      and the wrapped total never exceeds what they are worth. */
  lemma {:induction false} CheckedInputs(u: UtxoSet, height: nat, inputs: seq<TxInput>, spent: set<OutPoint>,
                                         total: nat)
    requires CheckInputs(u, height, inputs, spent, total).Some?
    ensures var (spent', total') := CheckInputs(u, height, inputs, spent, total).value;
            && PointsOf(inputs) <= u.Keys && PointsOf(inputs) !! spent
            && spent' == spent + PointsOf(inputs)
            && total' <= total + Supply(Only(u, PointsOf(inputs)))
    decreases |inputs|
  {
    hide Supply;
    if inputs != [] {
      var p := inputs[0].previous;
      var rest := PointsOf(inputs[1..]);
      CheckedInputs(u, height, inputs[1..], spent + {p}, (total + u[p].value) % U64);
      assert inputs == [inputs[0]] + inputs[1..];
      assert PointsOf(inputs) == {p} + rest;
      var mine := Only(u, PointsOf(inputs));
      SupplySplit(mine, p);
      assert mine - {p} == Only(u, rest);
    }
  }

  /** An input that passes the checks spends an existing, mature output it unlocks, and one that no earlier
      input of the block spends. */
  ghost predicate SpendsSoundly(u: UtxoSet, height: nat, i: TxInput, spent: set<OutPoint>) {
    && i.previous in u && i.unlocks && i.previous !in spent
    && (u[i.previous].isCoinbase ==> u[i.previous].height + 100 <= height)
  }

  lemma {:induction false} CheckedInput(u: UtxoSet, height: nat, inputs: seq<TxInput>, spent: set<OutPoint>,
                                        total: nat, n: nat)
    requires CheckInputs(u, height, inputs, spent, total).Some? && n < |inputs|
    ensures SpendsSoundly(u, height, inputs[n], spent + PointsOf(inputs[..n]))
    decreases |inputs|
  {
    var p := inputs[0].previous;
    if n > 0 {
      CheckedInput(u, height, inputs[1..], spent + {p}, (total + u[p].value) % U64, n - 1);
      assert inputs[..n] == [inputs[0]] + inputs[1..][..n - 1];
      assert spent + {p} + PointsOf(inputs[1..][..n - 1]) == spent + PointsOf(inputs[..n]);
    }
  }

  lemma CheckedHead(u: UtxoSet, height: nat, txs: seq<Transaction>, spent: set<OutPoint>)
    requires CheckTransactions(u, height, txs, spent) && txs != []
    ensures CheckInputs(u, height, txs[0].inputs, spent, 0).Some?
    ensures CheckTransactions(u, height, txs[1..], spent + PointsOf(txs[0].inputs))
  {
    hide Supply;
    CheckedInputs(u, height, txs[0].inputs, spent, 0);
  }

  lemma PointsOfPrefix(txs: seq<Transaction>, t: nat)
    requires 0 < t <= |txs|
    ensures AllPoints(txs[..t]) == PointsOf(txs[0].inputs) + AllPoints(txs[1..][..t - 1])
  {
    assert txs[..t][1..] == txs[1..][..t - 1];
  }

  /** The same for every input of every transaction after the coinbase. */
  lemma {:induction false} CheckedSpend(u: UtxoSet, height: nat, txs: seq<Transaction>, spent: set<OutPoint>, t: nat,
                                        n: nat)
    requires CheckTransactions(u, height, txs, spent) && t < |txs| && n < |txs[t].inputs|
    ensures SpendsSoundly(u, height, txs[t].inputs[n], spent + AllPoints(txs[..t]) + PointsOf(txs[t].inputs[..n]))
    decreases |txs|
  {
    CheckedHead(u, height, txs, spent);
    hide CheckTransactions;
    hide CheckInputs;
    if t == 0 {
      CheckedInput(u, height, txs[0].inputs, spent, 0, n);
      assert spent + AllPoints([]) == spent;
    } else {
      CheckedSpend(u, height, txs[1..], spent + PointsOf(txs[0].inputs), t - 1, n);
      hide SpendsSoundly;
      PointsOfPrefix(txs, t);
      hide AllPoints;
      assert spent + PointsOf(txs[0].inputs) + AllPoints(txs[1..][..t - 1]) == spent + AllPoints(txs[..t]);
    }
  }

  /** Each transaction creates no more than the inputs it alone spends are worth. */
  ghost predicate Balanced(u: UtxoSet, txs: seq<Transaction>)
    decreases |txs|
  {
    txs == [] ||
    (var points := PointsOf(txs[0].inputs);
     && points <= u.Keys && points !! AllPoints(txs[1..])
     && Sum(txs[0].outputs) <= Supply(Only(u, points))
     && Balanced(u, txs[1..]))
  }

  function AllPoints(txs: seq<Transaction>): set<OutPoint>
    decreases |txs|
  {
    if txs == [] then {} else PointsOf(txs[0].inputs) + AllPoints(txs[1..])
  }

  /** The outputs of every transaction add up to a 64-bit number. */
  ghost predicate Fits(txs: seq<Transaction>) {
    forall tx <- txs :: Sum(tx.outputs) < U64
  }

  /** Checked transactions spend outputs that are there; if no total overflows, none creates value. */
  lemma {:induction false} CheckedTransactions(u: UtxoSet, height: nat, txs: seq<Transaction>, spent: set<OutPoint>)
    requires CheckTransactions(u, height, txs, spent)
    ensures AllPoints(txs) !! spent && AllPoints(txs) <= u.Keys
    ensures Fits(txs) ==> Balanced(u, txs)
    decreases |txs|
  {
    hide Supply;
    if txs != [] {
      CheckedInputs(u, height, txs[0].inputs, spent, 0);
      CheckedTransactions(u, height, txs[1..], CheckTransaction(u, height, txs[0], spent).value);
    }
  }

  /** Spending balanced transactions in order, with part of the set claimed by inputs still to be spent. */
  lemma {:induction false} BalancedConserves(pre: UtxoSet, cur: UtxoSet, txs: seq<Transaction>, height: nat)
    requires Balanced(pre, txs) && COINBASE_OUTPOINT !in pre
    ensures Supply(ApplyTxs(cur, txs, height)) <= Supply(cur - AllPoints(txs)) + Supply(Only(pre, AllPoints(txs)))
    decreases |txs|
  {
    hide Supply;
    if txs == [] {
      assert cur - AllPoints(txs) == cur;
    } else {
      var tx, rest := txs[0], AllPoints(txs[1..]);
      var points, all := PointsOf(tx.inputs), AllPoints(txs);
      var next := ApplyTx(cur, tx, height);
      BalancedConserves(pre, next, txs[1..], height);
      assert SpentBy(tx) == points;
      SpendStep(cur, tx, height, rest);
      SupplyPartition(Only(pre, all), points);
      assert Only(Only(pre, all), points) == Only(pre, points);
      assert Only(pre, all) - points == Only(pre, rest);
    }
  }

  lemma AddOutputs(kept: UtxoSet, tx: Transaction, height: nat)
    ensures Supply(kept + Outputs(tx, height)) <= Supply(kept) + Sum(tx.outputs)
  {
    hide Supply;
    SupplyAdd(kept, Outputs(tx, height));
    OutputsWorth(tx, height, 0);
    assert OutputsFrom(tx, height, 0) == Outputs(tx, height);
    assert tx.outputs[0..] == tx.outputs;
  }

  lemma ApplyWithin(cur: UtxoSet, tx: Transaction, height: nat, rest: set<OutPoint>)
    ensures forall p <- ApplyTx(cur, tx, height) - rest ::
              var w := (cur - (SpentBy(tx) + rest)) + Outputs(tx, height);
              p in w && w[p] == ApplyTx(cur, tx, height)[p]
  {
  }

  lemma SpendStep(cur: UtxoSet, tx: Transaction, height: nat, rest: set<OutPoint>)
    ensures Supply(ApplyTx(cur, tx, height) - rest) <= Supply(cur - (SpentBy(tx) + rest)) + Sum(tx.outputs)
  {
    hide Supply;
    ApplyWithin(cur, tx, height, rest);
    var kept := cur - (SpentBy(tx) + rest);
    SupplyMonotone(ApplyTx(cur, tx, height) - rest, kept + Outputs(tx, height));
    hide ApplyTx;
    hide Outputs;
    AddOutputs(kept, tx, height);
  }

  lemma CoinbaseStep(u: UtxoSet, tx: Transaction, height: nat, points: set<OutPoint>)
    requires IsCoinbase(tx) && points <= u.Keys
    ensures Supply(ApplyTx(u, tx, height) - points) + Supply(Only(u, points)) <= Supply(u) + Sum(tx.outputs)
  {
    hide Supply;
    hide ApplyTx;
    CoinbaseSpendsNothing(tx);
    SpendStep(u, tx, height, points);
    assert u - (SpentBy(tx) + points) == u - points;
    SupplyPartition(u, points);
  }

  /** A valid block whose totals fit in 64 bits raises the total value by at most the block reward. */
  lemma BlockConserves(u: UtxoSet, b: Block)
    requires b.transactions != [] && CheckCoinbase(b.transactions[0])
    requires CheckTransactions(u, b.height, b.transactions[1..], {})
    requires COINBASE_OUTPOINT !in u && Fits(b.transactions)
    ensures Supply(ApplyTxs(u, b.transactions, b.height)) <= Supply(u) + BLOCK_REWARD
  {
    hide Supply;
    hide CheckTransactions;
    hide Balanced;
    hide ApplyTx;
    var coinbase, txs := b.transactions[0], b.transactions[1..];
    assert coinbase in b.transactions && Fits(txs);
    hide Fits;
    CheckedTransactions(u, b.height, txs, {});
    BalancedConserves(u, ApplyTx(u, coinbase, b.height), txs, b.height);
    CoinbaseStep(u, coinbase, b.height, AllPoints(txs));
  }

  lemma CoinbaseSpendsNothing(tx: Transaction)
    requires IsCoinbase(tx)
    ensures SpentBy(tx) == {}
  {
  }

  // ---- Overflowing totals ----

  /** No two transactions share an id, and no id names an output that is there already. */
  ghost predicate FreshIds(u: UtxoSet, txs: seq<Transaction>) {
    && (forall m, n :: 0 <= m < n < |txs| ==> txs[m].txid != txs[n].txid)
    && (forall p, n :: p in u && 0 <= n < |txs| ==> p.txid != txs[n].txid)
  }

  /** An output that no transaction spends or creates keeps its value. */
  lemma {:induction false} UntouchedOutput(u: UtxoSet, txs: seq<Transaction>, height: nat, p: OutPoint)
    requires p in u && forall n :: 0 <= n < |txs| ==> p.txid != txs[n].txid && p !in SpentBy(txs[n])
    ensures p in ApplyTxs(u, txs, height) && ApplyTxs(u, txs, height)[p] == u[p]
    decreases |txs|
  {
    if txs != [] {
      assert p !in CreatedBy(txs[0]);
      UntouchedOutput(ApplyTx(u, txs[0], height), txs[1..], height, p);
    }
  }

  /** An output created under a fresh id is there after the block. */
  lemma {:induction false} CreatedStays(u: UtxoSet, txs: seq<Transaction>, height: nat, t: nat, p: OutPoint)
    requires t < |txs| && p in CreatedBy(txs[t])
    requires forall n :: 0 <= n < |txs| ==> p !in SpentBy(txs[n]) && (n != t ==> txs[n].txid != txs[t].txid)
    ensures p in ApplyTxs(u, txs, height) && ApplyTxs(u, txs, height)[p] == Outputs(txs[t], height)[p]
    decreases |txs|
  {
    var next := ApplyTx(u, txs[0], height);
    if t == 0 {
      assert p in next && next[p] == Outputs(txs[0], height)[p];
      UntouchedOutput(next, txs[1..], height, p);
    } else {
      CreatedStays(next, txs[1..], height, t - 1, p);
    }
  }

  lemma {:induction false} SpentIsPoint(txs: seq<Transaction>, n: nat, p: OutPoint)
    requires n < |txs| && p in SpentBy(txs[n])
    ensures p in AllPoints(txs)
  {
    if n > 0 {
      SpentIsPoint(txs[1..], n - 1, p);
    }
  }

  /** Everything a transaction of the block creates is in the set afterwards, since nothing in the block
      can spend it: inputs must be there before the block. */
  lemma OutputsAreAdded(u: UtxoSet, b: Block, t: nat)
    requires b.transactions != [] && CheckCoinbase(b.transactions[0])
    requires CheckTransactions(u, b.height, b.transactions[1..], {})
    requires FreshIds(u, b.transactions) && t < |b.transactions|
    ensures Sum(b.transactions[t].outputs) <= Supply(ApplyTxs(u, b.transactions, b.height))
  {
    hide Supply;
    hide ApplyTxs;
    var txs, tx := b.transactions, b.transactions[t];
    CheckedTransactions(u, b.height, txs[1..], {});
    CoinbaseSpendsNothing(txs[0]);
    hide CheckTransactions;
    var after, made := ApplyTxs(u, txs, b.height), Outputs(tx, b.height);
    forall p | p in made
      ensures p in after && after[p] == made[p]
    {
      forall n | 0 <= n < |txs|
        ensures p !in SpentBy(txs[n])
      {
        if n > 0 && p in SpentBy(txs[n]) {
          SpentIsPoint(txs[1..], n - 1, p);
        }
      }
      CreatedStays(u, txs, b.height, t, p);
    }
    SupplyMonotone(made, after);
    OutputsWorth(tx, b.height, 0);
    assert OutputsFrom(tx, b.height, 0) == made;
    assert tx.outputs[0..] == tx.outputs;
  }

  /** A valid block with fresh ids keeps the reward rule if and only if no total of its outputs overflows. */
  lemma ConservesIffFits(u: UtxoSet, b: Block)
    requires b.transactions != [] && CheckCoinbase(b.transactions[0])
    requires CheckTransactions(u, b.height, b.transactions[1..], {})
    requires COINBASE_OUTPOINT !in u && FreshIds(u, b.transactions) && Supply(u) + BLOCK_REWARD < U64
    ensures Supply(ApplyTxs(u, b.transactions, b.height)) <= Supply(u) + BLOCK_REWARD <==> Fits(b.transactions)
  {
    hide Supply;
    hide ApplyTxs;
    hide CheckTransactions;
    hide FreshIds;
    if Fits(b.transactions) {
      BlockConserves(u, b);
    } else {
      var tx :| tx in b.transactions && Sum(tx.outputs) >= U64;
      var t :| 0 <= t < |b.transactions| && b.transactions[t] == tx;
      OutputsAreAdded(u, b, t);
    }
  }
}

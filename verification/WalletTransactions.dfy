/** The two wallet-shaping commands as they run (transactions/split-wallet.ts, transactions/fund-pool-wallet.ts). */
module WalletTransactions {
  import opened Prelude
  import opened Folds
  import opened WalletShape
  import opened WalletDynamics

  function Value(w: seq<Utxo>): int {
    Sum(w, Lovelace())
  }

  /** A transaction under construction: the inputs forced in, and the outputs in the order of the `pay` calls. */
  class TxBuilder {
    var inputs: seq<Utxo>
    var outputs: seq<int>

    constructor ()
      ensures inputs == [] && outputs == []
    {
      inputs, outputs := [], [];
    }

    method PayAll(lovelaces: seq<int>)
      modifies this
      ensures inputs == old(inputs) && outputs == old(outputs) + lovelaces
    {
      for k := 0 to |lovelaces|
        invariant inputs == old(inputs) && outputs == old(outputs) + lovelaces[..k]
      {
        outputs := outputs + [lovelaces[k]];
      }
      assert lovelaces[..|lovelaces|] == lovelaces;
    }
  }

  lemma {:induction false} SelectPartitions(w: seq<Utxo>, refs: seq<OutRef>)
    ensures Value(w) == Value(Select(w, refs, true)) + Value(Select(w, refs, false))
    ensures forall u :: u in Select(w, refs, false) <==> u in w && u.outRef !in refs
  {
    if w != [] {
      SelectPartitions(w[1..], refs);
      assert w == [w[0]] + w[1..];
      SumAppend([w[0]], Select(w[1..], refs, (w[0].outRef in refs)), Lovelace());
      assert Sum([w[0]], Lovelace()) == w[0].lovelace;
    }
  }

  lemma {:induction false} ProducedValue(values: seq<int>, made: seq<Utxo>)
    requires |made| == |values| && forall k :: 0 <= k < |made| ==> made[k].lovelace == values[k]
    ensures Value(made) == Total(values)
  {
    if values != [] {
      ProducedValue(values[1..], made[1..]);
    }
  }

  /** Output `k` of the transaction carries lovelace `k` and nothing else; inputs are gone, all other UTxOs stay. */
  ghost predicate Paid(before: seq<Utxo>, inputs: seq<OutRef>, lovelaces: seq<int>, txHash: string, after: seq<Utxo>) {
    && (forall k :: 0 <= k < |lovelaces| ==> Utxo(OutRef(txHash, k), lovelaces[k], true) in after)
    && (forall u :: u in before && u.outRef !in inputs ==> u in after)
    && (forall u :: u in after ==> u.outRef.txHash == txHash || (u in before && u.outRef !in inputs))
  }

  lemma SplitPays(w: seq<Utxo>, consume: seq<OutRef>, lovelaces: seq<int>, change: int, txHash: string)
    ensures var after := Select(w, consume, false) + Produced(lovelaces + [change], txHash);
      && Paid(w, consume, lovelaces, txHash, after)
      && Value(after) == Value(w) - Value(Select(w, consume, true)) + Total(lovelaces) + change
  {
    var rest, made := Select(w, consume, false), Produced(lovelaces + [change], txHash);
    SelectPartitions(w, consume);
    SumAppend(rest, made, Lovelace());
    ProducedValue(lovelaces + [change], made);
    SumAppend(lovelaces, [change], Size());
    forall k | 0 <= k < |lovelaces|
      ensures Utxo(OutRef(txHash, k), lovelaces[k], true) in rest + made
    {
      assert made[k] == Utxo(OutRef(txHash, k), lovelaces[k], true);
    }
  }

  class Wallet {
    var utxos: seq<Utxo>
    /** What coin selection is restricted to; no restriction when empty. */
    var pinned: seq<Utxo>

    constructor (utxos: seq<Utxo>)
      ensures this.utxos == utxos && pinned == []
    {
      this.utxos, pinned := utxos, [];
    }

    /**
      Consumes exactly the planned inputs and pays exactly the planned pieces plus one change output. A refusal leaves
      the UTxOs alone; only a build that fails leaves the pin behind.
     */
    method SplitWallet(consume: seq<OutRef>, lovelaces: seq<int>, fee: int, txHash: string)
      returns (error: Option<SplitError>)
      requires pinned == []
      modifies this
      ensures match ExecuteSplit(old(utxos), consume, lovelaces, fee, txHash)
              case Ok(after) => error == None && utxos == after && pinned == []
              case Err(e) =>
                && error == Some(e) && utxos == old(utxos)
                && pinned == if e == CannotBalance then Select(utxos, consume, true) else []
      ensures error == None ==>
                Paid(old(utxos), consume, lovelaces, txHash, utxos) && Value(utxos) == Value(old(utxos)) - fee
    {
      hide Paid, Produced, Select;
      if consume == [] {
        return Some(NoInputs);
      }
      if lovelaces == [] {
        return Some(NoOutputs);
      }
      if exists k :: 0 <= k < |lovelaces| && lovelaces[k] <= 0 {
        return Some(NonPositiveOutput);
      }
      var live := Select(utxos, consume, true);
      if |live| < |consume| {
        return Some(InputNotLive);
      }
      pinned := live;
      var tx := new TxBuilder();
      tx.inputs := pinned;
      tx.PayAll(lovelaces);
      assert tx.outputs == lovelaces;
      var change := Value(tx.inputs) - Total(tx.outputs) - fee;
      if change <= 0 {
        return Some(CannotBalance);
      }
      SplitPays(utxos, consume, lovelaces, change, txHash);
      utxos := Select(utxos, consume, false) + Produced(tx.outputs + [change], txHash);
      pinned := [];
      return None;
    }
  }

  /**
    What the balancer may pick for a payment: live inputs, within the reservation if there is one, that cover the
    outputs, the fee and a change output.
   */
  predicate Covers(w: seq<Utxo>, reserved: Option<seq<OutRef>>, picked: seq<OutRef>, lovelaces: seq<int>, fee: int) {
    && (reserved.Some? ==> forall o :: o in picked ==> o in reserved.value)
    && Value(Select(w, picked, true)) > Total(lovelaces) + fee
  }

  /** Pays a pool from the main wallet; `picked` is the balancer's choice of inputs. */
  method FundPoolWallet(source: Wallet, pool: Wallet, lovelaces: seq<int>, reserved: Option<seq<OutRef>>,
                        picked: seq<OutRef>, fee: int, txHash: string)
    returns (error: Option<SplitError>)
    requires source != pool && source.pinned == []
    modifies source, pool
    ensures error == None ==>
              && pool.utxos == old(pool.utxos) + Produced(lovelaces, txHash)
              && Paid(old(pool.utxos), [], lovelaces, txHash, pool.utxos)
              && (forall k :: 0 <= k < |lovelaces| ==> 0 < lovelaces[k])
              && Value(source.utxos) + Value(pool.utxos) == old(Value(source.utxos)) + old(Value(pool.utxos)) - fee
              && (reserved.Some? ==>
                    forall u :: u in old(source.utxos) && u.outRef !in reserved.value ==> u in source.utxos)
              && source.pinned == []
    ensures error.Some? ==> source.utxos == old(source.utxos) && pool.utxos == old(pool.utxos)
    ensures error.Some? ==>
              source.pinned == if error == Some(CannotBalance) && reserved.Some?
                               then Select(old(source.utxos), reserved.value, true)
                               else []
    ensures error == None
       <==> lovelaces != [] && (forall k :: 0 <= k < |lovelaces| ==> 0 < lovelaces[k])
            && (reserved.Some? ==> |Select(old(source.utxos), reserved.value, true)| >= |reserved.value|)
            && Covers(old(source.utxos), reserved, picked, lovelaces, fee)
  {
    if lovelaces == [] {
      return Some(NoOutputs);
    }
    if exists k :: 0 <= k < |lovelaces| && lovelaces[k] <= 0 {
      return Some(NonPositiveOutput);
    }
    if reserved.Some? {
      var live := Select(source.utxos, reserved.value, true);
      if |live| < |reserved.value| {
        return Some(InputNotLive);
      }
      source.pinned := live;
    }
    if !Covers(source.utxos, reserved, picked, lovelaces, fee) {
      return Some(CannotBalance);
    }
    var tx := new TxBuilder();
    tx.PayAll(lovelaces);
    assert tx.outputs == lovelaces;
    var change := Value(Select(source.utxos, picked, true)) - Total(tx.outputs) - fee;
    SelectPartitions(source.utxos, picked);
    var rest, back := Select(source.utxos, picked, false), Utxo(OutRef(txHash, |lovelaces|), change, true);
    SumAppend(rest, [back], Lovelace());
    assert Value([back]) == change;
    SumAppend(pool.utxos, Produced(tx.outputs, txHash), Lovelace());
    ProducedValue(tx.outputs, Produced(tx.outputs, txHash));
    PoolIsPaid(pool.utxos, lovelaces, txHash);
    source.utxos := rest + [back];
    pool.utxos := pool.utxos + Produced(tx.outputs, txHash);
    source.pinned := [];
    return None;
  }

  lemma PoolIsPaid(pool: seq<Utxo>, lovelaces: seq<int>, txHash: string)
    ensures Paid(pool, [], lovelaces, txHash, pool + Produced(lovelaces, txHash))
  {
    var made := Produced(lovelaces, txHash);
    forall k | 0 <= k < |lovelaces|
      ensures Utxo(OutRef(txHash, k), lovelaces[k], true) in pool + made
    {
      assert made[k] == Utxo(OutRef(txHash, k), lovelaces[k], true);
    }
  }

  /** Plan, pay, plan again: an empty pool funded by the planner's own pieces is never split afterwards. */
  method FundEmptyPool(source: Wallet, pool: Wallet, p: Profile, amount: int, picked: seq<OutRef>, fee: int,
                       txHash: string)
    returns (error: Option<SplitError>, plan: Plan)
    requires source != pool && source.pinned == [] && pool.utxos == [] && Sensible(p) && p.feeBufferLovelace <= amount
    modifies source, pool
    ensures error == None ==> Value(pool.utxos) == amount && !plan.Act?
  {
    var pieces := PlanShapeOutputs(pool.utxos, p, amount, true);
    FundingLandsWhole([], p, amount);
    error := FundPoolWallet(source, pool, pieces, None, picked, fee, txHash);
    if error == None {
      assert [] + Produced(pieces, txHash) == Produced(pieces, txHash);
      ProducedValue(pieces, Produced(pieces, txHash));
      FundingKeepsRest([], p, amount, txHash);
      assert pool.utxos == FundedPool([], p, amount, txHash);
    }
    plan := PlanWalletSplit(pool.utxos, p);
  }
}

/**
  The transitions that the Aiken validators accept (contracts/aiken/lib/dia_cardano_oracle), as an independent
  reference for the ledger: the commands refuse exactly what the chain refuses, and build the only datum it accepts.
 */
module Validators {
  import opened Prelude
  import opened Folds
  import opened Deposits
  import opened FeeLedger
  import opened LedgerInvariant

  datatype ReceiverRedeemer =
    | SpendTopUp
    | SpendAccrueFee(fee: int)
    | SpendSettle
    | SpendWithdraw(amount: int)
    | SpendUpdateMinUtxo(minUtxo: int)

  predicate ValidReceiverState(s: ReceiverState) {
    s.balance >= 0 && s.accrued >= 0 && s.minUtxo > 0
  }

  predicate ExactReceiverLovelace(u: ReceiverUtxo) {
    u.lovelace == u.state.minUtxo + u.state.balance + u.state.accrued
  }

  predicate ReceiverTransition(r: ReceiverRedeemer, prev: ReceiverUtxo, next: ReceiverUtxo) {
    var added := next.lovelace - prev.lovelace;
    var p, n := prev.state, next.state;
    match r
    case SpendTopUp =>
      added > 0 && n.balance == p.balance + added && n.accrued == p.accrued && n.minUtxo == p.minUtxo
    case SpendAccrueFee(fee) =>
      && fee >= 0 && added >= 0 && fee <= p.balance + added
      && n.balance == p.balance - fee + added && n.accrued == p.accrued + fee && n.minUtxo == p.minUtxo
    case SpendSettle =>
      p.accrued > 0 && n.accrued == 0 && n.balance == p.balance && n.minUtxo == p.minUtxo
    case SpendWithdraw(amount) =>
      && amount > 0 && amount <= p.balance
      && n.balance == p.balance - amount && n.accrued == p.accrued && n.minUtxo == p.minUtxo
    case SpendUpdateMinUtxo(minUtxo) =>
      minUtxo > 0 && n.minUtxo == minUtxo && n.balance == p.balance && n.accrued == p.accrued
  }

  /** The Receiver validator's verdict on a spend that keeps the NFT. */
  predicate ReceiverAccepts(r: ReceiverRedeemer, prev: ReceiverUtxo, next: ReceiverUtxo) {
    && ValidReceiverState(prev.state) && ValidReceiverState(next.state)
    && ExactReceiverLovelace(prev) && ExactReceiverLovelace(next)
    && ReceiverTransition(r, prev, next)
  }

  datatype HookRedeemer = HookApplySettle(delta: int) | HookAdminUpdate | HookPayOut(amount: int)

  predicate ValidHookState(s: HookState) {
    s.accrued >= 0 && s.collected >= 0 && s.withdrawn >= 0 && s.minUtxo > 0
  }

  predicate HookTransition(r: HookRedeemer, p: HookState, n: HookState) {
    match r
    case HookApplySettle(delta) =>
      delta > 0 && n == p.(accrued := p.accrued + delta, collected := p.collected + delta)
    case HookAdminUpdate =>
      n.accrued == p.accrued && n.collected == p.collected && n.withdrawn == p.withdrawn
    case HookPayOut(amount) =>
      amount > 0 && amount <= p.accrued && n == p.(accrued := p.accrued - amount, withdrawn := p.withdrawn + amount)
  }

  predicate HookAccepts(r: HookRedeemer, prev: HookUtxo, next: HookUtxo) {
    && ValidHookState(prev.state) && ValidHookState(next.state)
    && prev.lovelace == prev.state.minUtxo + prev.state.accrued
    && next.lovelace == next.state.minUtxo + next.state.accrued
    && HookTransition(r, prev.state, next.state)
  }

  /** The deposit validator: the Receiver must gain at least everything swept from the deposit address. */
  predicate DepositAccepts(swept: int, prev: ReceiverUtxo, next: ReceiverUtxo) {
    swept > 0 && next.lovelace - prev.lovelace >= swept
  }

  // ----- the commands against the validators

  /** A withdrawal is refused off chain exactly when no withdrawal of that amount could pass on chain. */
  lemma WithdrawMatchesValidator(l: Ledger, c: ClientId, amount: int)
    requires Inv(l) && l.config.Some? && c in l.receivers
    ensures WithdrawStep(l, c, amount).Ok?
       <==> exists next :: ReceiverAccepts(SpendWithdraw(amount), l.receivers[c], next)
    ensures WithdrawStep(l, c, amount).Ok? ==>
      forall next :: ReceiverAccepts(SpendWithdraw(amount), l.receivers[c], next)
                <==> next == WithdrawStep(l, c, amount).value.receivers[c]
  {
    var s := l.receivers[c].state;
    var next := ReceiverOutput(s.(balance := s.balance - amount));
    if 0 < amount <= s.balance {
      assert ReceiverAccepts(SpendWithdraw(amount), l.receivers[c], next);
    }
  }

  lemma TopUpMatchesValidator(l: Ledger, c: ClientId, next: ReceiverUtxo)
    requires Inv(l) && c in l.receivers
    ensures ReceiverAccepts(SpendTopUp, l.receivers[c], next)
       <==> exists amount :: TopUpStep(l, c, amount).Ok? && TopUpStep(l, c, amount).value.receivers[c] == next
  {
    var amount := next.lovelace - l.receivers[c].lovelace;
    if ReceiverAccepts(SpendTopUp, l.receivers[c], next) {
      assert TopUpStep(l, c, amount).Ok? && TopUpStep(l, c, amount).value.receivers[c] == next;
    }
  }

  lemma ReceiverMinMatchesValidator(l: Ledger, c: ClientId, minUtxo: int, next: ReceiverUtxo)
    requires Inv(l) && l.config.Some? && c in l.receivers
    ensures ReceiverAccepts(SpendUpdateMinUtxo(minUtxo), l.receivers[c], next)
       <==> ReceiverMinStep(l, c, minUtxo).Ok? && ReceiverMinStep(l, c, minUtxo).value.receivers[c] == next
  {
  }

  /** A merge is a top-up for the Receiver validator and a complete sweep for the deposit validator. */
  lemma MergeIsAccepted(l: Ledger, c: ClientId, listing: seq<Deposit>)
    requires Inv(l) && MergeStep(l, c, listing).Ok?
    ensures var next := MergeStep(l, c, listing).value.receivers[c];
      var swept := TotalOf(Select(listing, l.params.depositMin, l.params.maxPerMerge));
      ReceiverAccepts(SpendTopUp, l.receivers[c], next) && DepositAccepts(swept, l.receivers[c], next)
  {
    var selected := Select(listing, l.params.depositMin, l.params.maxPerMerge);
    SelectedPositive(DepositsOf(l, c), listing, l.params.depositMin, l.params.maxPerMerge);
    assert selected == [selected[0]] + selected[1..];
    forall d | d in selected
      ensures 0 < d.lovelace
    {
      SelectedComeFromAddress(DepositsOf(l, c), listing, l.params.depositMin, l.params.maxPerMerge, d);
    }
    PositiveTotal(selected[1..]);
  }

  lemma SelectedComeFromAddress(address: seq<Deposit>, listing: seq<Deposit>, minLovelace: int, cap: int, d: Deposit)
    requires multiset(listing) == multiset(address) && d in Select(listing, minLovelace, cap)
    ensures d in address
  {
    var clean := Clean(listing, minLovelace);
    assert d in clean;
    FilterCounts(listing, minLovelace, true, d);
    assert d in multiset(clean);
    assert d in multiset(address);
  }

  /**
    An update charges exactly the protocol fee, folds exactly the swept deposits, and is refused for lack of funds
    exactly when no Receiver output with that fee and that gain could pass on chain.
   */
  lemma UpdateMatchesValidator(l: Ledger, c: ClientId, entries: seq<Entry>, listing: seq<Deposit>, clock: Clock)
    requires Inv(l) && c in l.receivers
    requires || UpdateStep(l, c, entries, listing, clock).Ok?
             || UpdateStep(l, c, entries, listing, clock) == Err(Insufficient)
    ensures var fee := ProtocolFee(l.params, |entries|);
      var swept := TotalOf(Select(listing, l.params.depositMin, l.params.maxPerFold));
      var prev := l.receivers[c];
      && (UpdateStep(l, c, entries, listing, clock).Ok?
          <==> exists next ::
                 ReceiverAccepts(SpendAccrueFee(fee), prev, next) && next.lovelace == prev.lovelace + swept)
      && (UpdateStep(l, c, entries, listing, clock).Ok? ==>
            var next := UpdateStep(l, c, entries, listing, clock).value.receivers[c];
            && ReceiverAccepts(SpendAccrueFee(fee), prev, next) && next.lovelace == prev.lovelace + swept
            && (swept > 0 ==> DepositAccepts(swept, prev, next)))
  {
    var fee := ProtocolFee(l.params, |entries|);
    var swept := TotalOf(Select(listing, l.params.depositMin, l.params.maxPerFold));
    var prev := l.receivers[c];
    FeeNonNegative(l.params, |entries|);
    if listing == [] {
      assert Select(listing, l.params.depositMin, l.params.maxPerFold) == [];
    } else {
      SelectedPositive(DepositsOf(l, c), listing, l.params.depositMin, l.params.maxPerFold);
    }
    if prev.state.balance - fee + swept >= 0 {
      var s := prev.state.(balance := prev.state.balance - fee + swept, accrued := prev.state.accrued + fee);
      assert ReceiverAccepts(SpendAccrueFee(fee), prev, ReceiverOutput(s));
    }
  }

  // ----- the pairs of an update against the coordinator

  /** The UTxO that an entry spends. A created pair spends none, even where its unit is live already. */
  function Consumed(l: Ledger, e: Entry): Option<PairUtxo>
    requires e.isCreate || Sole(l, e.pair).Some?
  {
    if e.isCreate then None else Some(l.pairs[Sole(l, e.pair).value])
  }

  /**
    The coordinator's verdict on one witness of a transaction valid from `lower` to `upper`. A witness without a
    matching pair input is a creation, and nothing asks whether the unit is live elsewhere.
   */
  predicate WitnessAccepted(p: Params, lower: nat, upper: int, e: Entry, prev: Option<PairUtxo>, next: PairUtxo) {
    && e.expiry * 1000 >= upper && next.unit == e.pair && next.quote == e.quote && next.lovelace > 0
    && match prev
       case None => e.quote.timestamp * 1000 >= lower - p.maxDrift * 1000
       case Some(u) =>
         && u.unit == e.pair && next.lovelace == u.lovelace
         && e.quote.timestamp > u.quote.timestamp && e.quote.nonce > u.quote.nonce
  }

  /** Every entry's witness passes, with the UTxO it spends, the output it pays and the validity range of the update. */
  predicate WitnessesAccepted(l: Ledger, entries: seq<Entry>, clock: Clock)
    requires entries != [] && Resolved(l, entries)
  {
    forall k :: 0 <= k < |entries| ==>
      WitnessAccepted(l.params, clock.validFrom, ValidTo(entries, clock.nowMs), entries[k],
                      Consumed(l, entries[k]), PairOutput(l, entries[k]))
  }

  lemma {:induction false} EarliestIsLeast(entries: seq<Entry>)
    requires entries != []
    ensures forall k :: 0 <= k < |entries| ==> EarliestExpiry(entries) <= entries[k].expiry
    ensures exists k :: 0 <= k < |entries| && EarliestExpiry(entries) == entries[k].expiry
  {
    var n := |entries| - 1;
    if n == 0 {
      assert EarliestExpiry(entries) == entries[0].expiry;
    } else {
      EarliestIsLeast(entries[..n]);
      var k :| 0 <= k < n && EarliestExpiry(entries[..n]) == entries[..n][k].expiry;
      assert EarliestExpiry(entries) == entries[if entries[k].expiry < entries[n].expiry then k else n].expiry;
      forall i | 0 <= i < |entries|
        ensures EarliestExpiry(entries) <= entries[i].expiry
      {
        assert i == n || entries[..n][i] == entries[i];
      }
    }
  }

  /**
    An update that names its pairs properly and can still land in time is refused for a superseded or an old value
    exactly when the coordinator would reject one of its witnesses under the validity range it is given.
   */
  lemma UpdateMatchesCoordinator(l: Ledger, c: ClientId, entries: seq<Entry>, clock: Clock)
    requires PairsSound(l) && ValidParams(l.params)
    requires var r := UpdateRefusal(l, c, entries, clock); r.None? || r == Some(Superseded) || r == Some(TooOld)
    requires entries != [] && clock.nowMs < ValidTo(entries, clock.nowMs) && Resolved(l, entries)
    ensures UpdateRefusal(l, c, entries, clock).None? <==> WitnessesAccepted(l, entries, clock)
  {
    EarliestIsLeast(entries);
  }

  /** Every Receiver of a settlement passes, and so does the hook with the sum as its delta. */
  lemma SettleIsAccepted(l: Ledger, clients: seq<ClientId>)
    requires Inv(l) && SettleStep(l, clients).Ok?
    ensures var l' := SettleStep(l, clients).value;
      && l'.receivers.Keys == l.receivers.Keys
      && (forall c :: c in clients ==>
            c in l.receivers && ReceiverAccepts(SpendSettle, l.receivers[c], l'.receivers[c]))
      && HookAccepts(HookApplySettle(AccruedOf(l.receivers, clients)), l.hook.value, l'.hook.value)
  {
    SettleMovesTheSum(l, clients);
    forall c | c in clients
      ensures c in l.receivers
      ensures ReceiverAccepts(SpendSettle, l.receivers[c], SettleStep(l, clients).value.receivers[c])
    {
      var i :| 0 <= i < |clients| && clients[i] == c;
      assert l.receivers[clients[i]].state.accrued > 0;
    }
  }

  lemma HookWithdrawMatchesValidator(l: Ledger, amount: int)
    requires Inv(l) && l.config.Some? && l.hook.Some?
    ensures HookWithdrawStep(l, amount).Ok? <==> exists next :: HookAccepts(HookPayOut(amount), l.hook.value, next)
    ensures HookWithdrawStep(l, amount).Ok? ==>
      forall next :: HookAccepts(HookPayOut(amount), l.hook.value, next)
                <==> next == HookWithdrawStep(l, amount).value.hook.value
  {
    var h := l.hook.value.state;
    var next := HookOutput(h.(accrued := h.accrued - amount, withdrawn := h.withdrawn + amount));
    if 0 < amount <= h.accrued {
      assert HookAccepts(HookPayOut(amount), l.hook.value, next);
    }
  }

  lemma HookUpdateMatchesValidator(l: Ledger, next: HookUtxo)
    requires Inv(l) && l.config.Some? && l.hook.Some?
    ensures HookAccepts(HookAdminUpdate, l.hook.value, next)
       <==> exists address, minUtxo ::
              HookUpdateStep(l, address, minUtxo).Ok? && HookUpdateStep(l, address, minUtxo).value.hook == Some(next)
  {
    if HookAccepts(HookAdminUpdate, l.hook.value, next) {
      var address, minUtxo := Some(next.state.withdrawAddress), Some(next.state.minUtxo);
      assert HookUpdateStep(l, address, minUtxo).Ok? && HookUpdateStep(l, address, minUtxo).value.hook == Some(next);
    }
  }
}

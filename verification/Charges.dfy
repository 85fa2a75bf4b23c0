/**
  What the commands charge, sweep and set, stated in the fields of the Config, of a deposit and of a datum, and what
  follows across several commands.
 */
module Charges {
  import opened Prelude
  import opened Folds
  import opened Deposits
  import opened FeeLedger
  import opened LedgerInvariant

  // ----- the protocol fee

  /** The Receiver before and after it has been charged for `n` pairs: one base fee and one fee for every pair. */
  predicate ChargedFor(p: Params, n: nat, before: ReceiverState, after: ReceiverState, swept: int) {
    && after.accrued == before.accrued + p.baseFee + n * p.perPairFee
    && after.balance == before.balance - p.baseFee - n * p.perPairFee + swept
    && after.minUtxo == before.minUtxo
  }

  /** An accepted update charges the fee of the live Config and credits what left the deposit address. */
  lemma UpdateCharges(l: Ledger, c: ClientId, entries: seq<Entry>, listing: seq<Deposit>, clock: Clock, m: Ledger)
    requires UpdateStep(l, c, entries, listing, clock) == Ok(m)
    ensures c in l.receivers && c in m.receivers
    ensures ChargedFor(l.params, |entries|, l.receivers[c].state, m.receivers[c].state,
                       TotalOf(DepositsOf(l, c)) - TotalOf(DepositsOf(m, c)))
    ensures m.books.fees == l.books.fees + l.params.baseFee + |entries| * l.params.perPairFee
    ensures forall k :: k != c ==> (k in m.receivers <==> k in l.receivers)
    ensures forall k :: k != c && k in l.receivers ==> m.receivers[k] == l.receivers[k]
    ensures m.params == l.params && (listing == [] ==> m.deposits == l.deposits)
  {
    if listing == [] {
      assert Select(listing, l.params.depositMin, l.params.maxPerFold) == [];
    } else {
      SweepTotals(listing, DepositsOf(l, c), l.params.depositMin, l.params.maxPerFold);
    }
  }

  /** Every further pair in a batch costs exactly the fee per pair. */
  lemma OneMorePairCosts(l: Ledger, c: ClientId, entries: seq<Entry>, e: Entry, clock: Clock, m: Ledger, n: Ledger)
    requires UpdateStep(l, c, entries, [], clock) == Ok(m)
    requires UpdateStep(l, c, entries + [e], [], clock) == Ok(n)
    ensures c in m.receivers && c in n.receivers
    ensures n.receivers[c].state.accrued == m.receivers[c].state.accrued + l.params.perPairFee
    ensures n.receivers[c].state.balance == m.receivers[c].state.balance - l.params.perPairFee
  {
    hide UpdateStep;
    UpdateCharges(l, c, entries, [], clock, m);
    UpdateCharges(l, c, entries + [e], [], clock, n);
    Distribute(|entries|, 1, l.params.perPairFee);
  }

  /** Splitting one batch into two updates costs exactly one more base fee. */
  lemma SplittingCostsOneBaseFee(l: Ledger, c: ClientId, first: seq<Entry>, rest: seq<Entry>, clock: Clock,
                                 later: Clock, whole: Ledger, half: Ledger, both: Ledger)
    requires UpdateStep(l, c, first + rest, [], clock) == Ok(whole)
    requires UpdateStep(l, c, first, [], clock) == Ok(half) && UpdateStep(half, c, rest, [], later) == Ok(both)
    ensures c in whole.receivers && c in both.receivers
    ensures both.receivers[c].state.accrued == whole.receivers[c].state.accrued + l.params.baseFee
    ensures both.receivers[c].state.balance == whole.receivers[c].state.balance - l.params.baseFee
  {
    hide UpdateStep;
    UpdateCharges(l, c, first + rest, [], clock, whole);
    UpdateCharges(l, c, first, [], clock, half);
    UpdateCharges(half, c, rest, [], later, both);
    Distribute(|first|, |rest|, l.params.perPairFee);
  }

  lemma Distribute(a: nat, b: nat, x: int)
    ensures (a + b) * x == a * x + b * x
  {
  }

  /** New parameters hold from the next command on: a fee update is charged by the very next oracle update. */
  lemma NewFeesApplyAtOnce(l: Ledger, p: Params, c: ClientId, entries: seq<Entry>, clock: Clock, m: Ledger, n: Ledger)
    requires Inv(l) && Step(l, ConfigUpdate(p)) == Ok(m) && UpdateStep(m, c, entries, [], clock) == Ok(n)
    ensures m.config == Some(p.minUtxo) && c in l.receivers && c in n.receivers
    ensures ChargedFor(p, |entries|, l.receivers[c].state, n.receivers[c].state, 0)
    ensures forall k :: 0 <= k < |entries| && entries[k].isCreate ==>
              l.pairOutputs + k in n.pairs && n.pairs[l.pairOutputs + k].lovelace == p.minUtxo
  {
    hide UpdateStep, Inv, PaidFor;
    ConfigStepsKeepInv(l, ConfigUpdate(p));
    UpdateCharges(m, c, entries, [], clock, n);
    CreatesHoldMinimum(m, c, entries, clock, n);
  }

  lemma CreatesHoldMinimum(l: Ledger, c: ClientId, entries: seq<Entry>, clock: Clock, m: Ledger)
    requires Inv(l) && UpdateStep(l, c, entries, [], clock) == Ok(m)
    ensures forall k :: 0 <= k < |entries| && entries[k].isCreate ==>
              l.pairOutputs + k in m.pairs && m.pairs[l.pairOutputs + k].lovelace == l.params.minUtxo
  {
    UpdatePaysPairs(l, c, entries, [], clock);
    hide UpdateStep, Inv;
    forall k | 0 <= k < |entries| && entries[k].isCreate
      ensures l.pairOutputs + k in m.pairs && m.pairs[l.pairOutputs + k].lovelace == l.params.minUtxo
    {
      assert m.pairs[l.pairOutputs + k] == PairOutput(l, entries[k]);
    }
  }

  // ----- sweeping a deposit address

  /** A merge takes clean deposits only, up to its own cap, credits exactly them, and touches no other address. */
  lemma MergeSweeps(l: Ledger, c: ClientId, listing: seq<Deposit>, m: Ledger)
    requires MergeStep(l, c, listing) == Ok(m)
    ensures CleanSweep(DepositsOf(l, c), DepositsOf(m, c), l.params.depositMin, l.params.maxPerMerge)
    ensures c in l.receivers && c in m.receivers
    ensures m.receivers[c].state == l.receivers[c].state.(
              balance := l.receivers[c].state.balance + TotalOf(DepositsOf(l, c)) - TotalOf(DepositsOf(m, c)))
    ensures forall k :: k != c ==> DepositsOf(m, k) == DepositsOf(l, k)
  {
    SweepsOnlyClean(listing, DepositsOf(l, c), l.params.depositMin, l.params.maxPerMerge);
    SweepTotals(listing, DepositsOf(l, c), l.params.depositMin, l.params.maxPerMerge);
  }

  /** So does the fold of an update, up to its cap; without a listing it takes nothing. */
  lemma UpdateSweepsClean(l: Ledger, c: ClientId, entries: seq<Entry>, listing: seq<Deposit>, clock: Clock, m: Ledger)
    requires UpdateStep(l, c, entries, listing, clock) == Ok(m)
    ensures listing == [] ==> DepositsOf(m, c) == DepositsOf(l, c)
    ensures listing != [] ==>
              CleanSweep(DepositsOf(l, c), DepositsOf(m, c), l.params.depositMin, l.params.maxPerFold)
    ensures forall k :: k != c ==> DepositsOf(m, k) == DepositsOf(l, k)
  {
    if listing != [] {
      SweepsOnlyClean(listing, DepositsOf(l, c), l.params.depositMin, l.params.maxPerFold);
    }
  }

  // ----- settings

  /** Setting the hook's fields and setting them back restores its UTxO; a field that is not given keeps its value. */
  lemma HookUpdateCanBeUndone(l: Ledger, address: Option<string>, minUtxo: Option<int>, m: Ledger)
    requires Inv(l) && HookUpdateStep(l, address, minUtxo) == Ok(m)
    ensures l.hook.Some? && m.hook.Some?
    ensures var s, s' := l.hook.value.state, m.hook.value.state;
      && (address.None? ==> s'.withdrawAddress == s.withdrawAddress)
      && (address.Some? ==> s'.withdrawAddress == address.value)
      && (minUtxo.None? ==> s'.minUtxo == s.minUtxo)
      && (minUtxo.Some? ==> s'.minUtxo == minUtxo.value)
      && HookUpdateStep(m, Some(s.withdrawAddress), Some(s.minUtxo)).Ok?
      && HookUpdateStep(m, Some(s.withdrawAddress), Some(s.minUtxo)).value.hook == l.hook
  {
  }

  /** The unit's one UTxO gets exactly the new minimum and keeps its value; the others stay as they were. */
  lemma PairMinEffect(l: Ledger, p: PairId, minUtxo: int, m: Ledger)
    requires Inv(l) && PairMinStep(l, p, minUtxo) == Ok(m)
    ensures exists i, j :: i in l.pairs && j in m.pairs && Live(l, p) == {i} && Live(m, p) == {j}
                           && m.pairs[j] == PairUtxo(p, minUtxo, l.pairs[i].quote)
    ensures forall i :: i in l.pairs && l.pairs[i].unit != p ==> i in m.pairs && m.pairs[i] == l.pairs[i]
  {
    var i, j := Sole(l, p).value, l.pairOutputs;
    assert Live(l, p) == {i} && Live(m, p) == {j};
  }

  // ----- the accounts against the fees

  function ChargedOf(): Account -> int {
    (a: Account) => a.charged
  }

  /** What the clients have been charged, one by one, adds up to the fees of the deployment. */
  ghost predicate ChargesSumToFees(l: Ledger) {
    SumMap(l.books.accounts, ChargedOf()) == l.books.fees
  }

  lemma BookCharges(b: Books, c: ClientId, credit: int, withdrawal: int, charge: int)
    ensures SumMap(Book(b, c, credit, withdrawal, charge).accounts, ChargedOf())
         == SumMap(b.accounts, ChargedOf()) + charge
  {
    SumMapUpdate(b.accounts, c, Book(b, c, credit, withdrawal, charge).accounts[c], ChargedOf());
  }

  predicate BooksAnAccount(a: Action) {
    a.TopUp? || a.ReceiverWithdraw? || a.MergeDeposits? || a.Update?
  }

  lemma OthersKeepAccounts(l: Ledger, a: Action, m: Ledger)
    requires Step(l, a) == Ok(m) && !BooksAnAccount(a)
    ensures m.books.accounts == l.books.accounts && m.books.fees == l.books.fees
  {
    hide UpdateStep, Drained, AccruedOf, Sole, TopUpStep, WithdrawStep, MergeStep;
  }

  lemma StepKeepsCharges(l: Ledger, a: Action, m: Ledger)
    requires ChargesSumToFees(l) && Step(l, a) == Ok(m)
    ensures ChargesSumToFees(m)
  {
    if !BooksAnAccount(a) {
      OthersKeepAccounts(l, a, m);
    } else {
      hide UpdateRefusal, PayPairs, SettleStep, BurnPairStep, PairMinStep, BurnDuplicateStep;
      match a
      case TopUp(c, amount) => BookCharges(l.books, c, amount, 0, 0);
      case ReceiverWithdraw(c, amount) => BookCharges(l.books, c, 0, amount, 0);
      case MergeDeposits(c, listing) =>
        BookCharges(l.books, c, m.receivers[c].state.balance - l.receivers[c].state.balance, 0, 0);
      case Update(c, entries, listing, clock) =>
        BookCharges(l.books, c, TotalOf(Select(listing, l.params.depositMin, l.params.maxPerFold)), 0,
                    ProtocolFee(l.params, |entries|));
    }
  }

  lemma {:induction false} RunKeepsCharges(l: Ledger, actions: seq<Action>, m: Ledger)
    requires ChargesSumToFees(l) && Run(l, actions) == Ok(m)
    ensures ChargesSumToFees(m)
    decreases |actions|
  {
    if actions != [] {
      StepKeepsCharges(l, actions[0], Step(l, actions[0]).value);
      RunKeepsCharges(Step(l, actions[0]).value, actions[1..], m);
    }
  }

  /** In every reachable state the fees charged to the clients add up to what is pending or was ever collected. */
  lemma ClientsPaidTheFees(l: Ledger)
    requires Reachable(l)
    ensures SumMap(l.books.accounts, ChargedOf()) == PendingFees(l) + Collected(l)
  {
    var genesis, actions :| Genesis(genesis) && Run(genesis, actions) == Ok(l);
    RunKeepsCharges(genesis, actions, l);
    ReachableInv(l);
  }

  // ----- when a command is accepted

  /** One UTxO, and only one, carries the unit. */
  ghost predicate CarriedOnce(l: Ledger, p: PairId) {
    exists i :: i in l.pairs && l.pairs[i].unit == p && forall j :: j in l.pairs && l.pairs[j].unit == p ==> j == i
  }

  /** What every command but an oracle update needs. A negative cap leaves out that many of the clean deposits. */
  ghost predicate Needs(l: Ledger, a: Action) {
    match a
    case BootstrapReceiver(c, minUtxo) => l.config.Some? && c !in l.receivers && c !in l.bootstrapped && minUtxo > 0
    case TopUp(c, amount) => c in l.receivers && amount > 0
    case FundDeposit(c, d) => d.lovelace > 0
    case MergeDeposits(c, listing) =>
      && c in l.receivers && multiset(listing) == multiset(DepositsOf(l, c))
      && var n := |set k: nat | k < |listing| && listing[k].tokens == [] && listing[k].lovelace >= l.params.depositMin|;
         if l.params.maxPerMerge < 0 then n + l.params.maxPerMerge > 0 else n > 0 && l.params.maxPerMerge > 0
    case Update(c, entries, listing, clock) => UpdateStep(l, c, entries, listing, clock).Ok?
    case Settle(clients) =>
      && l.config.Some? && l.hook.Some? && clients != [] && Distinct(clients)
      && forall c :: c in clients ==> c in l.receivers && l.receivers[c].state.accrued > 0
    case ReceiverWithdraw(c, amount) =>
      l.config.Some? && c in l.receivers && 0 < amount <= l.receivers[c].state.balance
    case ReceiverUpdateMinUtxo(c, minUtxo) => l.config.Some? && c in l.receivers && minUtxo > 0
    case HookWithdraw(amount) => l.config.Some? && l.hook.Some? && 0 < amount <= l.hook.value.state.accrued
    case HookUpdate(address, minUtxo) =>
      l.config.Some? && l.hook.Some? && (if minUtxo.Some? then minUtxo.value else l.hook.value.state.minUtxo) > 0
    case PairUpdateMinUtxo(p, minUtxo) => l.config.Some? && CarriedOnce(l, p) && minUtxo > 0
    case ConfigUpdate(p) => l.config.Some? && p.baseFee >= 0 && p.perPairFee >= 0 && p.minUtxo > 0
    case PublishReference(r, lovelace) => r !in l.references && lovelace > 0
    case BurnPair(p) => l.config.Some? && CarriedOnce(l, p)
    case BurnDuplicate(i) =>
      && l.config.Some? && i in l.pairs
      && exists j :: j in l.pairs && j != i && l.pairs[j].unit == l.pairs[i].unit
                     && l.pairs[j].quote.nonce >= l.pairs[i].quote.nonce
    case BurnReceiver(c) =>
      && l.config.Some? && c in l.receivers
      && l.receivers[c].state.balance == 0 && l.receivers[c].state.accrued == 0
    case BurnHook => l.config.Some? && l.hook.Some? && l.hook.value.state.accrued == 0
    case ReclaimReference(r) => l.config.Some? && r in l.references
    case BurnConfig => l.config.Some?
  }

  lemma CarriedOnceExactly(l: Ledger, p: PairId)
    ensures Sole(l, p).Some? <==> CarriedOnce(l, p)
  {
    if i :| i in l.pairs && l.pairs[i].unit == p && forall j :: j in l.pairs && l.pairs[j].unit == p ==> j == i {
      assert Live(l, p) == {i};
    }
  }

  lemma {:induction false} CleanArePositions(s: seq<Deposit>, min: int)
    ensures |Clean(s, min)| == |set k: nat | k < |s| && s[k].tokens == [] && s[k].lovelace >= min|
  {
    if s != [] {
      var rest := s[1..];
      CleanArePositions(rest, min);
      OnePositionMore(set k: nat | k < |rest| && rest[k].tokens == [] && rest[k].lovelace >= min,
                      set k: nat | k < |s| && s[k].tokens == [] && s[k].lovelace >= min);
    }
  }

  lemma MergeNeeds(l: Ledger, c: ClientId, listing: seq<Deposit>)
    ensures Step(l, MergeDeposits(c, listing)).Ok? <==> Needs(l, MergeDeposits(c, listing))
  {
    CleanArePositions(listing, l.params.depositMin);
    hide Clean;
  }

  predicate OfReceiver(a: Action) {
    a.BootstrapReceiver? || a.TopUp? || a.FundDeposit? || a.ReceiverWithdraw? || a.ReceiverUpdateMinUtxo?
    || a.BurnReceiver? || a.Settle?
  }

  lemma ReceiverCommandRunsExactly(l: Ledger, a: Action)
    requires OfReceiver(a)
    ensures Step(l, a).Ok? <==> Needs(l, a)
  {
    hide UpdateStep, MergeStep, HookWithdrawStep, HookUpdateStep, BurnHookStep, ReceiverOutput, Drained, AccruedOf;
    hide BurnPairStep, BurnDuplicateStep, PairMinStep, PublishStep, ReclaimStep, ConfigUpdateStep, BurnConfigStep;
  }

  /** Every command is accepted exactly when what it needs is there. */
  lemma CommandRunsExactly(l: Ledger, a: Action)
    ensures Step(l, a).Ok? <==> Needs(l, a)
  {
    if OfReceiver(a) {
      ReceiverCommandRunsExactly(l, a);
    } else {
      hide UpdateStep, SettleStep, Merge, HookOutput, ReceiverOutput, CarriedOnce;
      match a
      case MergeDeposits(c, listing) => MergeNeeds(l, c, listing);
      case PairUpdateMinUtxo(p, minUtxo) => CarriedOnceExactly(l, p);
      case BurnPair(p) => CarriedOnceExactly(l, p);
      case _ =>
    }
  }

  // ----- what one command does, the next one undoes

  /** A published script holds what was paid for it, and reclaiming it gives exactly that back. */
  lemma ReclaimUndoesPublish(l: Ledger, r: RefId, lovelace: int, m: Ledger, n: Ledger)
    requires Step(l, PublishReference(r, lovelace)) == Ok(m) && Step(m, ReclaimReference(r)) == Ok(n)
    ensures m.references == l.references[r := lovelace]
    ensures n == l.(books := l.books.(paidIn := l.books.paidIn + lovelace, paidOut := l.books.paidOut + lovelace))
  {
    assert n.references == l.references;
  }

  /** A new Receiver owes nothing, holds its minimum, and gives it back when burned; it cannot be set up again. */
  lemma BurnUndoesBootstrap(l: Ledger, c: ClientId, minUtxo: int, m: Ledger, n: Ledger)
    requires Step(l, BootstrapReceiver(c, minUtxo)) == Ok(m) && Step(m, BurnReceiver(c)) == Ok(n)
    ensures m.receivers == l.receivers[c := ReceiverUtxo(ReceiverState(0, 0, minUtxo), minUtxo)]
    ensures n == l.(bootstrapped := l.bootstrapped + {c},
                    books := l.books.(paidIn := l.books.paidIn + minUtxo, paidOut := l.books.paidOut + minUtxo))
    ensures forall x :: Step(n, BootstrapReceiver(c, x)) == Err(AlreadyExists)
  {
    assert n.receivers == l.receivers;
  }

  /** A client gets back what it put in: the Receiver is as before, and the account shows both. */
  lemma WithdrawUndoesTopUp(l: Ledger, c: ClientId, amount: int, m: Ledger, n: Ledger)
    requires Inv(l) && Step(l, TopUp(c, amount)) == Ok(m) && Step(m, ReceiverWithdraw(c, amount)) == Ok(n)
    ensures c in l.receivers && m.receivers == l.receivers[c := ReceiverUtxo(
              l.receivers[c].state.(balance := l.receivers[c].state.balance + amount),
              l.receivers[c].lovelace + amount)]
    ensures n.receivers == l.receivers && n.deposits == l.deposits && n.pairs == l.pairs && n.hook == l.hook
    ensures n.books.paidIn == l.books.paidIn + amount && n.books.paidOut == l.books.paidOut + amount
    ensures var a := AccountOf(l.books, c);
      AccountOf(n.books, c) == Account(a.credited + amount, a.withdrawn + amount, a.charged)
  {
    assert n.receivers == l.receivers;
  }

  /** Every parameter holds after the update, the Config UTxO has the new minimum, and the old ones can be set again. */
  lemma ConfigUpdateCanBeUndone(l: Ledger, p: Params, m: Ledger)
    requires Inv(l) && Step(l, ConfigUpdate(p)) == Ok(m) && l.config == Some(l.params.minUtxo)
    ensures m == l.(params := p, config := Some(p.minUtxo), books := m.books)
    ensures Step(m, ConfigUpdate(l.params)).Ok?
    ensures var n := Step(m, ConfigUpdate(l.params)).value;
      n == l.(books := n.books) && n.books.paidIn - l.books.paidIn == n.books.paidOut - l.books.paidOut
  {
  }

  /** A new minimum reaches the Receiver exactly, and the old one can be set again. */
  lemma ReceiverMinCanBeUndone(l: Ledger, c: ClientId, minUtxo: int, m: Ledger)
    requires Inv(l) && Step(l, ReceiverUpdateMinUtxo(c, minUtxo)) == Ok(m)
    ensures c in l.receivers && c in m.receivers
    ensures m.receivers[c].state == l.receivers[c].state.(minUtxo := minUtxo)
    ensures m.receivers[c].lovelace == l.receivers[c].lovelace + minUtxo - l.receivers[c].state.minUtxo
    ensures var again := Step(m, ReceiverUpdateMinUtxo(c, l.receivers[c].state.minUtxo));
      again.Ok? && again.value == l.(books := again.value.books)
  {
    var n := Step(m, ReceiverUpdateMinUtxo(c, l.receivers[c].state.minUtxo));
    assert n.Ok? ==> n.value.receivers == l.receivers;
  }

  /** A deposit joins what waits at the address. */
  lemma FundedDepositsWait(l: Ledger, c: ClientId, d: Deposit, m: Ledger)
    requires Step(l, FundDeposit(c, d)) == Ok(m)
    ensures multiset(DepositsOf(m, c)) == multiset(DepositsOf(l, c)) + multiset{d}
    ensures forall k :: k != c ==> DepositsOf(m, k) == DepositsOf(l, k)
    ensures m.books.paidIn == l.books.paidIn + d.lovelace && m.receivers == l.receivers
  {
  }
}

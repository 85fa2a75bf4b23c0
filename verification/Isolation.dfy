/** What belongs to one client changes only through commands that concern it, over every run of the deployment. */
module Isolation {
  import opened Prelude
  import opened Folds
  import opened Deposits
  import opened FeeLedger
  import opened LedgerInvariant

  /** A client's pair UTxOs. */
  function PairsOf(l: Ledger, c: ClientId): map<nat, PairUtxo> {
    map i | i in l.pairs && l.pairs[i].unit.client == c :: l.pairs[i]
  }

  /** Two ledgers agree on one client: its Receiver, its deposits, its pairs, its account, and whether it has begun. */
  ghost predicate SameClient(l: Ledger, m: Ledger, c: ClientId) {
    && (c in l.receivers <==> c in m.receivers)
    && (c in l.receivers ==> m.receivers[c] == l.receivers[c])
    && DepositsOf(m, c) == DepositsOf(l, c)
    && PairsOf(m, c) == PairsOf(l, c)
    && AccountOf(m.books, c) == AccountOf(l.books, c)
    && (c in l.bootstrapped <==> c in m.bootstrapped)
  }

  /** The commands that name a client, one of its pairs, or the number of one of its pair UTxOs. */
  predicate Concerns(a: Action, c: ClientId, pairs: map<nat, PairUtxo>) {
    match a
    case BootstrapReceiver(k, _) => k == c
    case TopUp(k, _) => k == c
    case FundDeposit(k, _) => k == c
    case MergeDeposits(k, _) => k == c
    case Update(k, _, _, _) => k == c
    case Settle(clients) => c in clients
    case ReceiverWithdraw(k, _) => k == c
    case ReceiverUpdateMinUtxo(k, _) => k == c
    case PairUpdateMinUtxo(p, _) => p.client == c
    case BurnPair(p) => p.client == c
    case BurnDuplicate(number) => number in pairs
    case BurnReceiver(k) => k == c
    case HookWithdraw(_) => false
    case HookUpdate(_, _) => false
    case ConfigUpdate(_) => false
    case PublishReference(_, _) => false
    case ReclaimReference(_) => false
    case BurnHook => false
    case BurnConfig => false
  }

  lemma OwnPairsOnly(l: Ledger, c: ClientId, entries: seq<Entry>, clock: Clock)
    requires UpdateRefusal(l, c, entries, clock).None?
    ensures forall k :: 0 <= k < |entries| ==> entries[k].pair.client == c
    ensures Resolved(l, entries) && DistinctEntries(entries)
  {
    hide Resolved, ValidTo, IsExpired, IsSuperseded, WithinDrift, DistinctEntries;
  }

  lemma PairOfAnother(l: Ledger, c: ClientId, entries: seq<Entry>, paid: map<nat, PairUtxo>, i: nat)
    requires Resolved(l, entries) && PaidFor(l, entries, paid) && PairsSound(l)
    requires forall k :: 0 <= k < |entries| ==> entries[k].pair.client != c
    ensures (i in paid && paid[i].unit.client == c) <==> (i in l.pairs && l.pairs[i].unit.client == c)
    ensures i in l.pairs && l.pairs[i].unit.client == c ==> i in paid && paid[i] == l.pairs[i]
  {
    if i in l.pairs {
      assert Updates(entries, l.pairs[i].unit) ==> l.pairs[i].unit.client != c;
    } else if i in paid {
      var k := i - l.pairOutputs;
      assert paid[l.pairOutputs + k] == PairOutput(l, entries[k]);
    }
  }

  lemma PairsOfAnother(l: Ledger, c: ClientId, entries: seq<Entry>, m: Ledger)
    requires Resolved(l, entries) && PaidFor(l, entries, m.pairs) && PairsSound(l)
    requires forall k :: 0 <= k < |entries| ==> entries[k].pair.client != c
    ensures PairsOf(m, c) == PairsOf(l, c)
  {
    hide PaidFor, Resolved, PairsSound;
    forall i: nat
      ensures i in PairsOf(m, c) <==> i in PairsOf(l, c)
      ensures i in PairsOf(l, c) ==> m.pairs[i] == l.pairs[i]
    {
      PairOfAnother(l, c, entries, m.pairs, i);
    }
  }

  /** What an update does to the parts of the ledger other than the pairs. */
  lemma UpdateKeepsRest(l: Ledger, c: ClientId, a: Action, m: Ledger)
    requires a.Update? && a.client != c && Step(l, a) == Ok(m)
    ensures (c in l.receivers <==> c in m.receivers) && (c in l.receivers ==> m.receivers[c] == l.receivers[c])
    ensures DepositsOf(m, c) == DepositsOf(l, c) && AccountOf(m.books, c) == AccountOf(l.books, c)
    ensures m.bootstrapped == l.bootstrapped
    ensures UpdateRefusal(l, a.client, a.entries, a.clock).None? && m.pairs == PayPairs(l, a.entries)
  {
    hide UpdateRefusal, PayPairs, Select, Leftover, TotalOf, ProtocolFee, Creations, Resolved, ReceiverOutput;
  }

  lemma UpdateOfAnother(l: Ledger, c: ClientId, a: Action, m: Ledger)
    requires Inv(l) && a.Update? && a.client != c && Step(l, a) == Ok(m)
    ensures SameClient(l, m, c)
  {
    UpdateKeepsRest(l, c, a, m);
    assert PairsSound(l);
    hide UpdateRefusal, PayPairs, PaidFor, Inv, PairsOf, UpdateStep, Resolved, PairsSound;
    OwnPairsOnly(l, a.client, a.entries, a.clock);
    PayPairsTotals(l, a.entries);
    PairsOfAnother(l, c, a.entries, m);
  }

  lemma SettleOfOthers(l: Ledger, c: ClientId, a: Action, m: Ledger)
    requires Inv(l) && a.Settle? && c !in a.clients && Step(l, a) == Ok(m)
    ensures SameClient(l, m, c)
  {
    DrainedAt(l.receivers, a.clients);
  }

  /** One UTxO of another client goes; at most one comes. */
  lemma OnePairReplaced(l: Ledger, c: ClientId, a: Action, m: Ledger)
    requires a.BurnPair? || a.BurnDuplicate? || a.PairUpdateMinUtxo?
    requires PairsSound(l) && !Concerns(a, c, PairsOf(l, c)) && Step(l, a) == Ok(m)
    ensures PairsOf(m, c) == PairsOf(l, c)
  {
    hide HasRival, UpdateStep, SettleStep, MergeStep;
    match a
    case BurnPair(p) =>
      assert m.pairs == l.pairs - {Sole(l, p).value};
    case BurnDuplicate(i) =>
      assert m.pairs == l.pairs - {i};
    case PairUpdateMinUtxo(p, minUtxo) =>
      var i := Sole(l, p).value;
      assert m.pairs == (l.pairs - {i})[l.pairOutputs := l.pairs[i].(lovelace := minUtxo)];
    case _ =>
  }

  lemma PairStepOfAnother(l: Ledger, c: ClientId, a: Action, m: Ledger)
    requires a.BurnPair? || a.BurnDuplicate? || a.PairUpdateMinUtxo?
    requires PairsSound(l) && !Concerns(a, c, PairsOf(l, c)) && Step(l, a) == Ok(m)
    ensures SameClient(l, m, c)
  {
    OnePairReplaced(l, c, a, m);
    hide PairsOf, Sole, PairsSound, HasRival, Concerns;
    hide UpdateStep, SettleStep, MergeStep, HookWithdrawStep, HookUpdateStep, BootstrapReceiverStep;
  }

  predicate OfDeployment(a: Action) {
    a.HookWithdraw? || a.HookUpdate? || a.ConfigUpdate? || a.PublishReference? || a.ReclaimReference? || a.BurnHook?
    || a.BurnConfig?
  }

  lemma SamePairs(l: Ledger, m: Ledger, c: ClientId)
    requires m.pairs == l.pairs
    ensures PairsOf(m, c) == PairsOf(l, c)
  {
  }

  lemma BalanceStepOfAnother(l: Ledger, a: Action, c: ClientId, m: Ledger)
    requires Step(l, a) == Ok(m) && !Concerns(a, c, PairsOf(l, c))
    requires a.TopUp? || a.ReceiverWithdraw? || a.ReceiverUpdateMinUtxo?
    ensures SameClient(l, m, c)
  {
    hide UpdateStep, SettleStep, BurnPairStep, BurnDuplicateStep, PairMinStep, ReceiverOutput, HookOutput;
    hide HookWithdrawStep, HookUpdateStep, BurnHookStep, ConfigUpdateStep, PublishStep, ReclaimStep, BurnConfigStep;
    hide BootstrapReceiverStep, FundDepositStep, MergeStep, BurnReceiverStep, PairsOf;
    SamePairs(l, m, c);
  }

  lemma ReceiverStepOfAnother(l: Ledger, a: Action, c: ClientId, m: Ledger)
    requires Step(l, a) == Ok(m) && !Concerns(a, c, PairsOf(l, c))
    requires a.BootstrapReceiver? || a.FundDeposit? || a.MergeDeposits? || a.BurnReceiver?
    ensures SameClient(l, m, c)
  {
    hide UpdateStep, SettleStep, BurnPairStep, BurnDuplicateStep, PairMinStep, Merge, ReceiverOutput, HookOutput;
    hide HookWithdrawStep, HookUpdateStep, BurnHookStep, ConfigUpdateStep, PublishStep, ReclaimStep, BurnConfigStep;
    hide TopUpStep, WithdrawStep, ReceiverMinStep, PairsOf;
    SamePairs(l, m, c);
  }

  lemma DeploymentStep(l: Ledger, a: Action, c: ClientId, m: Ledger)
    requires Step(l, a) == Ok(m) && OfDeployment(a)
    ensures SameClient(l, m, c)
  {
    hide UpdateStep, SettleStep, BurnPairStep, BurnDuplicateStep, PairMinStep, MergeStep, HookOutput;
    hide BootstrapReceiverStep, TopUpStep, FundDepositStep, WithdrawStep, ReceiverMinStep, BurnReceiverStep;
    hide PairsOf;
    SamePairs(l, m, c);
  }

  /** Whatever does not concern a client leaves everything of it as it was. */
  lemma StepLeavesOthersAlone(l: Ledger, a: Action, c: ClientId, m: Ledger)
    requires Inv(l) && Step(l, a) == Ok(m) && !Concerns(a, c, PairsOf(l, c))
    ensures SameClient(l, m, c)
  {
    if a.Update? {
      UpdateOfAnother(l, c, a, m);
    } else if a.Settle? {
      SettleOfOthers(l, c, a, m);
    } else if a.BurnPair? || a.BurnDuplicate? || a.PairUpdateMinUtxo? {
      assert PairsSound(l);
      PairStepOfAnother(l, c, a, m);
    } else if a.TopUp? || a.ReceiverWithdraw? || a.ReceiverUpdateMinUtxo? {
      BalanceStepOfAnother(l, a, c, m);
    } else if OfDeployment(a) {
      DeploymentStep(l, a, c, m);
    } else {
      ReceiverStepOfAnother(l, a, c, m);
    }
  }

  /**
    Over any run in which no command concerns a client, everything of it stays: its Receiver with balance and accrued
    fees, its deposits, its published pairs and its account. What others and the admin of the deployment do, new fees
    and teardown steps included, never touches it.
   */
  lemma {:induction false} RunLeavesOthersAlone(l: Ledger, actions: seq<Action>, c: ClientId, m: Ledger)
    requires Inv(l) && Run(l, actions) == Ok(m)
    requires forall k :: 0 <= k < |actions| ==> !Concerns(actions[k], c, PairsOf(l, c))
    ensures SameClient(l, m, c)
    decreases |actions|
  {
    hide Step, Inv, Concerns;
    if actions != [] {
      var next := Step(l, actions[0]).value;
      StepLeavesOthersAlone(l, actions[0], c, next);
      StepKeepsInv(l, actions[0]);
      assert PairsOf(next, c) == PairsOf(l, c);
      assert forall k :: 0 <= k < |actions[1..]| ==> actions[1..][k] == actions[k + 1];
      RunLeavesOthersAlone(next, actions[1..], c, m);
    }
  }
}

/** What every step of the ledger keeps, and what therefore holds after every run. */
module LedgerInvariant {
  import opened Prelude
  import opened Folds
  import opened Deposits
  import opened FeeLedger

  // ----- totals

  function ReceiverLovelace(): ReceiverUtxo -> int {
    (u: ReceiverUtxo) => u.lovelace
  }

  function ReceiverAccrued(): ReceiverUtxo -> int {
    (u: ReceiverUtxo) => u.state.accrued
  }

  function PairLovelace(): PairUtxo -> int {
    (u: PairUtxo) => u.lovelace
  }

  function DepositLovelace(): seq<Deposit> -> int {
    (s: seq<Deposit>) => TotalOf(s)
  }

  function Plain(): int -> int {
    (x: int) => x
  }

  ghost function PairsLocked(pairs: map<nat, PairUtxo>): int {
    SumMap(pairs, PairLovelace())
  }

  ghost function DepositsLocked(l: Ledger): int {
    SumMap(l.deposits, DepositLovelace())
  }

  function ConfigLocked(l: Ledger): int {
    if l.config.Some? then l.config.value else 0
  }

  function HookLocked(l: Ledger): int {
    if l.hook.Some? then l.hook.value.lovelace else 0
  }

  /** All lovelace under the protocol's scripts. */
  ghost function Locked(l: Ledger): int {
    ConfigLocked(l) + HookLocked(l) + SumMap(l.receivers, ReceiverLovelace()) + PairsLocked(l.pairs)
    + DepositsLocked(l) + SumMap(l.references, Plain())
  }

  ghost function PendingFees(l: Ledger): int {
    SumMap(l.receivers, ReceiverAccrued())
  }

  /** Everything the hook, or a hook since burned, has ever collected. */
  function Collected(l: Ledger): int {
    l.books.retired + if l.hook.Some? then l.hook.value.state.collected else 0
  }

  function BalanceOf(l: Ledger, c: ClientId): int {
    if c in l.receivers then l.receivers[c].state.balance else 0
  }

  // ----- the invariant

  /** A Receiver UTxO holds exactly its min-ADA, balance and accrued fees, and no part is negative. */
  predicate Backed(u: ReceiverUtxo) {
    u == ReceiverOutput(u.state) && 0 <= u.state.balance && 0 <= u.state.accrued && 0 < u.state.minUtxo
  }

  predicate HookBacked(u: HookUtxo) {
    && u == HookOutput(u.state)
    && 0 <= u.state.accrued && 0 <= u.state.withdrawn && 0 < u.state.minUtxo
    && u.state.collected == u.state.accrued + u.state.withdrawn
  }

  ghost predicate ReceiversBacked(l: Ledger) {
    forall c :: c in l.receivers ==> Backed(l.receivers[c])
  }

  ghost predicate DepositsPositive(l: Ledger) {
    forall c, d :: c in l.deposits && d in l.deposits[c] ==> 0 < d.lovelace
  }

  predicate ClientBalances(l: Ledger, c: ClientId) {
    var a := AccountOf(l.books, c);
    BalanceOf(l, c) + a.withdrawn + a.charged == a.credited
  }

  ghost predicate ClientsBalance(l: Ledger) {
    forall c :: ClientBalances(l, c)
  }

  /** Pair outputs are numbered in the order in which they were paid, and each holds lovelace. */
  ghost predicate PairsSound(l: Ledger) {
    forall i :: i in l.pairs ==> i < l.pairOutputs && 0 < l.pairs[i].lovelace
  }

  ghost predicate Inv(l: Ledger) {
    && ValidParams(l.params) && PairsSound(l)
    && ReceiversBacked(l) && l.receivers.Keys <= l.bootstrapped
    && (l.hook.Some? ==> HookBacked(l.hook.value))
    && DepositsPositive(l)
    && ClientsBalance(l)
    && l.books.fees == PendingFees(l) + Collected(l)
    && Locked(l) == l.books.paidIn - l.books.paidOut
  }

  /** A deployment right after the Config and the PaymentHook have been bootstrapped. */
  predicate Genesis(l: Ledger) {
    && ValidParams(l.params)
    && l.config == Some(l.params.minUtxo)
    && l.hook.Some? && l.hook.value == HookOutput(l.hook.value.state) && 0 < l.hook.value.state.minUtxo
    && l.hook.value.state.accrued == l.hook.value.state.collected == l.hook.value.state.withdrawn == 0
    && l.receivers == map[] && l.bootstrapped == {} && l.pairs == map[] && l.pairOutputs == 0
    && l.deposits == map[] && l.references == map[]
    && l.books == Books(0, 0, l.params.minUtxo + l.hook.value.lovelace, 0, map[])
  }

  // ----- how the totals change when one entry changes

  lemma OneReceiver(l: Ledger, c: ClientId, s: ReceiverState)
    requires ReceiversBacked(l)
    ensures var receivers := l.receivers[c := ReceiverOutput(s)];
      && SumMap(receivers, ReceiverLovelace())
         == SumMap(l.receivers, ReceiverLovelace()) + ReceiverOutput(s).lovelace
            - (if c in l.receivers then ReceiverOutput(l.receivers[c].state).lovelace else 0)
      && SumMap(receivers, ReceiverAccrued())
         == SumMap(l.receivers, ReceiverAccrued()) + s.accrued
            - (if c in l.receivers then l.receivers[c].state.accrued else 0)
  {
    SumMapUpdate(l.receivers, c, ReceiverOutput(s), ReceiverLovelace());
    SumMapUpdate(l.receivers, c, ReceiverOutput(s), ReceiverAccrued());
  }

  lemma OneAddress(l: Ledger, c: ClientId, s: seq<Deposit>)
    ensures SumMap(l.deposits[c := s], DepositLovelace()) == DepositsLocked(l) - TotalOf(DepositsOf(l, c)) + TotalOf(s)
  {
    SumMapUpdate(l.deposits, c, s, DepositLovelace());
  }

  lemma OnePairLess(pairs: map<nat, PairUtxo>, i: nat)
    requires i in pairs
    ensures PairsLocked(pairs - {i}) == PairsLocked(pairs) - pairs[i].lovelace
  {
    SumMapRemove(pairs, i, PairLovelace());
  }

  lemma OneMorePair(pairs: map<nat, PairUtxo>, i: nat, u: PairUtxo)
    requires i !in pairs
    ensures PairsLocked(pairs[i := u]) == PairsLocked(pairs) + u.lovelace
  {
    SumMapUpdate(pairs, i, u, PairLovelace());
  }

  /** Sweeping moves exactly the selected deposits out of the address. */
  lemma SweepTotals(listing: seq<Deposit>, address: seq<Deposit>, minLovelace: int, cap: int)
    requires multiset(listing) == multiset(address)
    ensures var selected := Select(listing, minLovelace, cap);
      TotalOf(address) == TotalOf(selected) + TotalOf(Leftover(listing, minLovelace, |selected|))
  {
    var selected := Select(listing, minLovelace, cap);
    SumPermutation(listing, address, Deposits.Lovelace());
    LeftoverFacts(listing, minLovelace, |selected|);
    assert selected == Clean(listing, minLovelace)[..|selected|];
    var left := Leftover(listing, minLovelace, |selected|);
    SumPermutation(listing, selected + left, Deposits.Lovelace());
    SumAppend(selected, left, Deposits.Lovelace());
  }

  ghost predicate Updates(entries: seq<Entry>, p: PairId) {
    exists k :: 0 <= k < |entries| && !entries[k].isCreate && entries[k].pair == p
  }

  /** Exactly the updated UTxOs are gone, the others are untouched, and every entry has its own new output. */
  ghost predicate PaidFor(l: Ledger, entries: seq<Entry>, paid: map<nat, PairUtxo>)
    requires Resolved(l, entries)
  {
    && (forall i :: i in paid ==> i in l.pairs || l.pairOutputs <= i < l.pairOutputs + |entries|)
    && (forall i :: i in l.pairs ==> (i in paid <==> !Updates(entries, l.pairs[i].unit)))
    && (forall i :: i in l.pairs && i in paid ==> paid[i] == l.pairs[i])
    && (forall k :: 0 <= k < |entries| ==>
          l.pairOutputs + k in paid && paid[l.pairOutputs + k] == PairOutput(l, entries[k]))
  }

  /** Every created pair adds its minimum to the locked lovelace, also beside a live UTxO of the same unit. */
  lemma {:induction false} PayPairsTotals(l: Ledger, entries: seq<Entry>)
    requires DistinctEntries(entries) && Resolved(l, entries) && PairsSound(l)
    ensures PaidFor(l, entries, PayPairs(l, entries))
    ensures PairsLocked(PayPairs(l, entries)) == PairsLocked(l.pairs) + Creations(entries) * l.params.minUtxo
  {
    hide PaidFor, PairsSound, PairsLocked, PairOutput;
    if entries == [] {
      PaidForNothing(l);
    } else {
      var n := |entries| - 1;
      PayPairsTotals(l, entries[..n]);
      OneMorePaid(l, entries, PayPairs(l, entries[..n]));
      OneMoreTotal(l, entries, PayPairs(l, entries[..n]));
      OneMoreTime(Creations(entries[..n]), l.params.minUtxo);
    }
  }

  lemma OneMoreTime(n: nat, x: int)
    ensures (n + 1) * x == n * x + x
  {
  }

  lemma PaidForNothing(l: Ledger)
    ensures PaidFor(l, [], l.pairs)
  {
  }

  lemma OneMorePaid(l: Ledger, entries: seq<Entry>, paid: map<nat, PairUtxo>)
    requires entries != [] && DistinctEntries(entries) && Resolved(l, entries) && PairsSound(l)
    requires PaidFor(l, entries[..|entries| - 1], paid)
    ensures var e := entries[|entries| - 1];
      var kept := if e.isCreate then paid else paid - {Sole(l, e.pair).value};
      PaidFor(l, entries, kept[l.pairOutputs + (|entries| - 1) := PairOutput(l, e)])
  {
    var n := |entries| - 1;
    var e := entries[n];
    forall i | i in l.pairs
      ensures Updates(entries, l.pairs[i].unit)
         <==> Updates(entries[..n], l.pairs[i].unit) || (!e.isCreate && l.pairs[i].unit == e.pair)
    {
      if Updates(entries, l.pairs[i].unit) {
        var k :| 0 <= k < |entries| && !entries[k].isCreate && entries[k].pair == l.pairs[i].unit;
        assert k == n || entries[..n][k] == entries[k];
      }
    }
  }

  lemma OneMoreTotal(l: Ledger, entries: seq<Entry>, paid: map<nat, PairUtxo>)
    requires entries != [] && DistinctEntries(entries) && Resolved(l, entries) && PairsSound(l)
    requires PaidFor(l, entries[..|entries| - 1], paid)
    ensures var e := entries[|entries| - 1];
      var kept := if e.isCreate then paid else paid - {Sole(l, e.pair).value};
      PairsLocked(kept[l.pairOutputs + (|entries| - 1) := PairOutput(l, e)])
      == PairsLocked(paid) + if e.isCreate then l.params.minUtxo else 0
  {
    var n := |entries| - 1;
    var e := entries[n];
    assert l.pairOutputs + n !in paid;
    if e.isCreate {
      OneMorePair(paid, l.pairOutputs + n, PairOutput(l, e));
    } else {
      var i := Sole(l, e.pair).value;
      assert !Updates(entries[..n], e.pair);
      OnePairLess(paid, i);
      OneMorePair(paid - {i}, l.pairOutputs + n, PairOutput(l, e));
    }
  }

  ghost predicate AllDifferent(clients: seq<ClientId>) {
    forall i, j :: 0 <= i < j < |clients| ==> clients[i] != clients[j]
  }

  lemma {:induction false} DrainedAt(receivers: map<ClientId, ReceiverUtxo>, clients: seq<ClientId>)
    ensures Drained(receivers, clients).Keys == receivers.Keys
    ensures forall c :: c in receivers ==>
      Drained(receivers, clients)[c]
      == if c in clients then ReceiverOutput(receivers[c].state.(accrued := 0)) else receivers[c]
  {
    if clients != [] {
      DrainedAt(receivers, clients[1..]);
      assert clients == [clients[0]] + clients[1..];
    }
  }

  /** A settlement of several clients takes from the Receivers exactly what it credits to the hook. */
  lemma {:induction false} DrainedTotals(receivers: map<ClientId, ReceiverUtxo>, clients: seq<ClientId>)
    requires forall c :: c in receivers ==> Backed(receivers[c])
    requires AllDifferent(clients)
    ensures SumMap(Drained(receivers, clients), ReceiverAccrued())
         == SumMap(receivers, ReceiverAccrued()) - AccruedOf(receivers, clients)
    ensures SumMap(Drained(receivers, clients), ReceiverLovelace())
         == SumMap(receivers, ReceiverLovelace()) - AccruedOf(receivers, clients)
  {
    if clients != [] {
      DrainedTotals(receivers, clients[1..]);
      DrainedAt(receivers, clients[1..]);
      var c, rest := clients[0], Drained(receivers, clients[1..]);
      if c in receivers {
        var next := ReceiverOutput(rest[c].state.(accrued := 0));
        SumMapUpdate(rest, c, next, ReceiverAccrued());
        SumMapUpdate(rest, c, next, ReceiverLovelace());
      }
    }
  }

  lemma {:induction false} AccruedOfNonNegative(receivers: map<ClientId, ReceiverUtxo>, clients: seq<ClientId>)
    requires forall c :: c in receivers ==> Backed(receivers[c])
    ensures 0 <= AccruedOf(receivers, clients)
  {
    if clients != [] {
      AccruedOfNonNegative(receivers, clients[1..]);
    }
  }

  // ----- every step keeps the invariant

  predicate Unmoved(l: Ledger, l': Ledger, c: ClientId) {
    BalanceOf(l', c) == BalanceOf(l, c) && AccountOf(l'.books, c) == AccountOf(l.books, c)
  }

  /** A step that concerns one client leaves the accounts of the others as they were. */
  lemma OthersBalance(l: Ledger, l': Ledger, c: ClientId)
    requires ClientsBalance(l) && ClientBalances(l', c)
    requires forall k :: k != c ==> Unmoved(l, l', k)
    ensures ClientsBalance(l')
  {
    forall k
      ensures ClientBalances(l', k)
    {
      assert ClientBalances(l, k);
      assert k == c || Unmoved(l, l', k);
    }
  }

  lemma SameClients(l: Ledger, l': Ledger)
    requires ClientsBalance(l) && l'.receivers == l.receivers && l'.books.accounts == l.books.accounts
    ensures ClientsBalance(l')
  {
    forall c
      ensures ClientBalances(l', c)
    {
      assert ClientBalances(l, c);
    }
  }

  lemma BootstrapKeepsInv(l: Ledger, c: ClientId, minUtxo: int)
    requires Inv(l) && BootstrapReceiverStep(l, c, minUtxo).Ok?
    ensures Inv(BootstrapReceiverStep(l, c, minUtxo).value)
  {
    assert ClientBalances(l, c);
    OthersBalance(l, BootstrapReceiverStep(l, c, minUtxo).value, c);
    OneReceiver(l, c, ReceiverState(0, 0, minUtxo));
  }

  lemma TopUpKeepsInv(l: Ledger, c: ClientId, amount: int)
    requires Inv(l) && TopUpStep(l, c, amount).Ok?
    ensures Inv(TopUpStep(l, c, amount).value)
  {
    assert ClientBalances(l, c);
    OthersBalance(l, TopUpStep(l, c, amount).value, c);
    OneReceiver(l, c, TopUpStep(l, c, amount).value.receivers[c].state);
  }

  lemma WithdrawKeepsInv(l: Ledger, c: ClientId, amount: int)
    requires Inv(l) && WithdrawStep(l, c, amount).Ok?
    ensures Inv(WithdrawStep(l, c, amount).value)
  {
    assert ClientBalances(l, c);
    OthersBalance(l, WithdrawStep(l, c, amount).value, c);
    OneReceiver(l, c, WithdrawStep(l, c, amount).value.receivers[c].state);
  }

  lemma ReceiverMinKeepsInv(l: Ledger, c: ClientId, minUtxo: int)
    requires Inv(l) && ReceiverMinStep(l, c, minUtxo).Ok?
    ensures Inv(ReceiverMinStep(l, c, minUtxo).value)
  {
    assert ClientBalances(l, c);
    OthersBalance(l, ReceiverMinStep(l, c, minUtxo).value, c);
    OneReceiver(l, c, ReceiverMinStep(l, c, minUtxo).value.receivers[c].state);
  }

  lemma BurnReceiverKeepsInv(l: Ledger, c: ClientId)
    requires Inv(l) && BurnReceiverStep(l, c).Ok?
    ensures Inv(BurnReceiverStep(l, c).value)
  {
    assert ClientBalances(l, c);
    OthersBalance(l, BurnReceiverStep(l, c).value, c);
    SumMapRemove(l.receivers, c, ReceiverLovelace());
    SumMapRemove(l.receivers, c, ReceiverAccrued());
  }

  lemma FundDepositKeepsInv(l: Ledger, c: ClientId, d: Deposit)
    requires Inv(l) && FundDepositStep(l, c, d).Ok?
    ensures Inv(FundDepositStep(l, c, d).value)
  {
    SameClients(l, FundDepositStep(l, c, d).value);
    OneAddress(l, c, DepositsOf(l, c) + [d]);
    SumAppend(DepositsOf(l, c), [d], Deposits.Lovelace());
    assert TotalOf([d]) == d.lovelace;
  }

  lemma SelectedPositive(address: seq<Deposit>, listing: seq<Deposit>, minLovelace: int, cap: int)
    requires multiset(listing) == multiset(address) && forall d :: d in address ==> 0 < d.lovelace
    ensures 0 <= TotalOf(Select(listing, minLovelace, cap))
    ensures forall d :: d in Leftover(listing, minLovelace, |Select(listing, minLovelace, cap)|) ==> 0 < d.lovelace
  {
    var selected := Select(listing, minLovelace, cap);
    var left := Leftover(listing, minLovelace, |selected|);
    LeftoverFacts(listing, minLovelace, |selected|);
    assert selected == Clean(listing, minLovelace)[..|selected|];
    forall d | d in selected || d in left
      ensures 0 < d.lovelace
    {
      assert d in multiset(selected) || d in multiset(left);
      assert d in multiset(listing);
      assert d in multiset(address);
    }
    PositiveTotal(selected);
  }

  lemma {:induction false} PositiveTotal(s: seq<Deposit>)
    requires forall d :: d in s ==> 0 < d.lovelace
    ensures 0 <= TotalOf(s)
  {
    if s != [] {
      PositiveTotal(s[1..]);
    }
  }

  /** What sweeping one address does to the deposits, however the provider lists it. */
  lemma SweepEffect(l: Ledger, c: ClientId, listing: seq<Deposit>, cap: int)
    requires DepositsPositive(l) && multiset(listing) == multiset(DepositsOf(l, c))
    ensures var selected := Select(listing, l.params.depositMin, cap);
      var deposits := l.deposits[c := Leftover(listing, l.params.depositMin, |selected|)];
      && 0 <= TotalOf(selected)
      && SumMap(deposits, DepositLovelace()) == DepositsLocked(l) - TotalOf(selected)
      && forall k, d :: k in deposits && d in deposits[k] ==> 0 < d.lovelace
  {
    var selected := Select(listing, l.params.depositMin, cap);
    SelectedPositive(DepositsOf(l, c), listing, l.params.depositMin, cap);
    SweepTotals(listing, DepositsOf(l, c), l.params.depositMin, cap);
    OneAddress(l, c, Leftover(listing, l.params.depositMin, |selected|));
  }

  lemma MergeKeepsInv(l: Ledger, c: ClientId, listing: seq<Deposit>)
    requires Inv(l) && MergeStep(l, c, listing).Ok?
    ensures Inv(MergeStep(l, c, listing).value)
  {
    assert ClientBalances(l, c);
    OthersBalance(l, MergeStep(l, c, listing).value, c);
    SweepEffect(l, c, listing, l.params.maxPerMerge);
    OneReceiver(l, c, MergeStep(l, c, listing).value.receivers[c].state);
  }

  lemma UpdateSweeps(l: Ledger, c: ClientId, entries: seq<Entry>, listing: seq<Deposit>, clock: Clock)
    requires DepositsPositive(l) && UpdateStep(l, c, entries, listing, clock).Ok?
    ensures var l' := UpdateStep(l, c, entries, listing, clock).value;
      var swept := TotalOf(Select(listing, l.params.depositMin, l.params.maxPerFold));
      0 <= swept && DepositsPositive(l') && DepositsLocked(l') == DepositsLocked(l) - swept
  {
    if listing == [] {
      assert Select(listing, l.params.depositMin, l.params.maxPerFold) == [];
    } else {
      SweepEffect(l, c, listing, l.params.maxPerFold);
    }
  }

  lemma UpdatePaysPairs(l: Ledger, c: ClientId, entries: seq<Entry>, listing: seq<Deposit>, clock: Clock)
    requires PairsSound(l) && ValidParams(l.params) && UpdateStep(l, c, entries, listing, clock).Ok?
    ensures var l' := UpdateStep(l, c, entries, listing, clock).value;
      && PairsLocked(l'.pairs) == PairsLocked(l.pairs) + Creations(entries) * l.params.minUtxo
      && PaidFor(l, entries, l'.pairs) && PairsSound(l')
  {
    PayPairsTotals(l, entries);
    PaidSoundly(l, entries, PayPairs(l, entries));
  }

  lemma PaidSoundly(l: Ledger, entries: seq<Entry>, paid: map<nat, PairUtxo>)
    requires PairsSound(l) && ValidParams(l.params) && Resolved(l, entries) && PaidFor(l, entries, paid)
    ensures forall i :: i in paid ==> i < l.pairOutputs + |entries| && 0 < paid[i].lovelace
  {
    forall i | i in paid
      ensures i < l.pairOutputs + |entries| && 0 < paid[i].lovelace
    {
      if i !in l.pairs {
        var k := i - l.pairOutputs;
        assert paid[l.pairOutputs + k] == PairOutput(l, entries[k]);
      }
    }
  }

  /** What an update moves: the fee from balance to accrued fees, the swept deposits into the balance. */
  lemma UpdateEffect(l: Ledger, c: ClientId, entries: seq<Entry>, listing: seq<Deposit>, clock: Clock)
    requires Inv(l) && UpdateStep(l, c, entries, listing, clock).Ok?
    ensures var l' := UpdateStep(l, c, entries, listing, clock).value;
      var s, s' := l.receivers[c].state, l'.receivers[c].state;
      var fee := l.params.baseFee + |entries| * l.params.perPairFee;
      var swept := s'.balance - s.balance + fee;
      && 0 <= fee && 0 <= swept && s'.accrued == s.accrued + fee && DepositsPositive(l') && PairsSound(l')
      && DepositsLocked(l') == DepositsLocked(l) - swept
      && PairsLocked(l'.pairs) == PairsLocked(l.pairs) + Creations(entries) * l.params.minUtxo
      && SumMap(l'.receivers, ReceiverLovelace()) == SumMap(l.receivers, ReceiverLovelace()) + swept
      && PendingFees(l') == PendingFees(l) + fee
  {
    UpdateSweeps(l, c, entries, listing, clock);
    UpdatePaysPairs(l, c, entries, listing, clock);
    FeeNonNegative(l.params, |entries|);
    OneReceiver(l, c, UpdateStep(l, c, entries, listing, clock).value.receivers[c].state);
  }

  lemma UpdateKeepsInv(l: Ledger, c: ClientId, entries: seq<Entry>, listing: seq<Deposit>, clock: Clock)
    requires Inv(l) && UpdateStep(l, c, entries, listing, clock).Ok?
    ensures Inv(UpdateStep(l, c, entries, listing, clock).value)
  {
    assert ClientBalances(l, c);
    OthersBalance(l, UpdateStep(l, c, entries, listing, clock).value, c);
    UpdateEffect(l, c, entries, listing, clock);
  }

  lemma FeeNonNegative(p: Params, n: nat)
    requires ValidParams(p)
    ensures 0 <= ProtocolFee(p, n)
  {
    MulMonotone(0, n, p.perPairFee);
  }

  /** A settlement moves exactly the sum of the drained fees into the hook and touches no balance. */
  lemma SettleMovesTheSum(l: Ledger, clients: seq<ClientId>)
    requires Inv(l) && SettleStep(l, clients).Ok?
    ensures var l' := SettleStep(l, clients).value;
      var total := AccruedOf(l.receivers, clients);
      && 0 < total && PendingFees(l') == PendingFees(l) - total
      && l'.hook.value.state.accrued == l.hook.value.state.accrued + total
      && l'.hook.value.state.collected == l.hook.value.state.collected + total
      && SumMap(l'.receivers, ReceiverLovelace()) == SumMap(l.receivers, ReceiverLovelace()) - total
      && l'.receivers.Keys == l.receivers.Keys
      && (forall c :: c in l.receivers ==>
            l'.receivers[c].state == if c in clients then l.receivers[c].state.(accrued := 0) else l.receivers[c].state)
      && ReceiversBacked(l')
  {
    DrainedAt(l.receivers, clients);
    DrainedTotals(l.receivers, clients);
    AccruedOfNonNegative(l.receivers, clients[1..]);
    assert l.receivers[clients[0]].state.accrued > 0;
  }

  lemma SettleKeepsInv(l: Ledger, clients: seq<ClientId>)
    requires Inv(l) && SettleStep(l, clients).Ok?
    ensures Inv(SettleStep(l, clients).value)
  {
    SettleMovesTheSum(l, clients);
    var l' := SettleStep(l, clients).value;
    forall c
      ensures ClientBalances(l', c)
    {
      assert ClientBalances(l, c);
    }
  }

  lemma PairStepsKeepInv(l: Ledger, a: Action)
    requires Inv(l) && Step(l, a).Ok? && (a.PairUpdateMinUtxo? || a.BurnPair? || a.BurnDuplicate?)
    ensures Inv(Step(l, a).value)
  {
    SameClients(l, Step(l, a).value);
    var i := if a.BurnDuplicate? then a.number else Sole(l, a.pair).value;
    OnePairLess(l.pairs, i);
    if a.PairUpdateMinUtxo? {
      OneMorePair(l.pairs - {i}, l.pairOutputs, l.pairs[i].(lovelace := a.minUtxo));
    }
  }

  lemma ReferenceStepsKeepInv(l: Ledger, a: Action)
    requires Inv(l) && Step(l, a).Ok? && (a.PublishReference? || a.ReclaimReference?)
    ensures Inv(Step(l, a).value)
  {
    SameClients(l, Step(l, a).value);
    if a.PublishReference? {
      SumMapUpdate(l.references, a.ref, a.lovelace, Plain());
    } else {
      SumMapRemove(l.references, a.ref, Plain());
    }
  }

  lemma HookStepsKeepInv(l: Ledger, a: Action)
    requires Inv(l) && Step(l, a).Ok? && (a.HookWithdraw? || a.HookUpdate? || a.BurnHook?)
    ensures Inv(Step(l, a).value)
  {
    SameClients(l, Step(l, a).value);
  }

  lemma ConfigStepsKeepInv(l: Ledger, a: Action)
    requires Inv(l) && Step(l, a).Ok? && (a.ConfigUpdate? || a.BurnConfig?)
    ensures Inv(Step(l, a).value)
  {
    SameClients(l, Step(l, a).value);
  }

  lemma StepKeepsInv(l: Ledger, a: Action)
    requires Inv(l) && Step(l, a).Ok?
    ensures Inv(Step(l, a).value)
  {
    match a
    case FundDeposit(c, d) => FundDepositKeepsInv(l, c, d);
    case MergeDeposits(c, listing) => MergeKeepsInv(l, c, listing);
    case Update(c, entries, listing, clock) => UpdateKeepsInv(l, c, entries, listing, clock);
    case Settle(clients) => SettleKeepsInv(l, clients);
    case BurnReceiver(c) => BurnReceiverKeepsInv(l, c);
    case PairUpdateMinUtxo(_, _) => PairStepsKeepInv(l, a);
    case BurnPair(_) => PairStepsKeepInv(l, a);
    case BurnDuplicate(_) => PairStepsKeepInv(l, a);
    case PublishReference(_, _) => ReferenceStepsKeepInv(l, a);
    case ReclaimReference(_) => ReferenceStepsKeepInv(l, a);
    case BootstrapReceiver(c, minUtxo) => BootstrapKeepsInv(l, c, minUtxo);
    case TopUp(c, amount) => TopUpKeepsInv(l, c, amount);
    case ReceiverWithdraw(c, amount) => WithdrawKeepsInv(l, c, amount);
    case ReceiverUpdateMinUtxo(c, minUtxo) => ReceiverMinKeepsInv(l, c, minUtxo);
    case HookWithdraw(_) => HookStepsKeepInv(l, a);
    case HookUpdate(_, _) => HookStepsKeepInv(l, a);
    case BurnHook => HookStepsKeepInv(l, a);
    case ConfigUpdate(_) => ConfigStepsKeepInv(l, a);
    case BurnConfig => ConfigStepsKeepInv(l, a);
  }

  lemma {:induction false} RunKeepsInv(l: Ledger, actions: seq<Action>)
    requires Inv(l) && Run(l, actions).Ok?
    ensures Inv(Run(l, actions).value)
    decreases |actions|
  {
    if actions != [] {
      StepKeepsInv(l, actions[0]);
      RunKeepsInv(Step(l, actions[0]).value, actions[1..]);
    }
  }

  // ----- what holds after every run

  ghost predicate Reachable(l: Ledger) {
    exists genesis, actions :: Genesis(genesis) && Run(genesis, actions) == Ok(l)
  }

  lemma {:induction false} RunOneMore(l: Ledger, actions: seq<Action>, a: Action)
    requires Run(l, actions).Ok?
    ensures Run(l, actions + [a]) == Step(Run(l, actions).value, a)
    decreases |actions|
  {
    if actions == [] {
      assert [] + [a] == [a] && [a][1..] == [];
    } else {
      assert (actions + [a])[1..] == actions[1..] + [a];
      RunOneMore(Step(l, actions[0]).value, actions[1..], a);
    }
  }

  lemma ReachableStep(l: Ledger, a: Action)
    requires Reachable(l) && Step(l, a).Ok?
    ensures Reachable(Step(l, a).value)
  {
    var genesis, actions :| Genesis(genesis) && Run(genesis, actions) == Ok(l);
    RunOneMore(genesis, actions, a);
    assert Genesis(genesis) && Run(genesis, actions + [a]) == Ok(Step(l, a).value);
  }

  /** A deployment that charges nothing. */
  function FreeDeployment(): Ledger {
    Ledger(Params(0, 0, 1, 1, 1, 1, 0), Some(1), Some(HookOutput(HookState("", 0, 0, 0, 1))), map[], {}, map[], 0,
           map[], map[], Books(0, 0, 2, 0, map[]))
  }

  lemma FreeDeploymentIsReachable()
    ensures Genesis(FreeDeployment()) && Reachable(FreeDeployment())
  {
    assert Genesis(FreeDeployment()) && Run(FreeDeployment(), []) == Ok(FreeDeployment());
  }

  lemma ReachableInv(l: Ledger)
    requires Reachable(l)
    ensures Inv(l)
  {
    var genesis, actions :| Genesis(genesis) && Run(genesis, actions) == Ok(l);
    RunKeepsInv(genesis, actions);
  }

  /** Every fee ever charged is pending in a Receiver or was collected, and what was collected is held or withdrawn. */
  lemma FeesAreAccountedFor(l: Ledger)
    requires Reachable(l)
    ensures l.books.fees == SumMap(l.receivers, ReceiverAccrued()) + Collected(l)
    ensures l.hook.Some? ==> var h := l.hook.value.state; h.collected == h.accrued + h.withdrawn
  {
    ReachableInv(l);
  }

  /** Every Receiver and the hook hold exactly what their datum says, with no negative part. */
  lemma EveryUtxoIsBacked(l: Ledger)
    requires Reachable(l)
    ensures forall c :: c in l.receivers ==> var u := l.receivers[c];
      && u.lovelace == u.state.minUtxo + u.state.balance + u.state.accrued
      && 0 <= u.state.balance && 0 <= u.state.accrued && 0 < u.state.minUtxo
    ensures l.hook.Some? ==> var u := l.hook.value;
      u.lovelace == u.state.minUtxo + u.state.accrued && 0 <= u.state.accrued && 0 < u.state.minUtxo
  {
    ReachableInv(l);
  }

  /** A client's balance is its credits less its withdrawals and fees, so withdrawals never reach fees or min-ADA. */
  lemma ClientsCannotOverdraw(l: Ledger, c: ClientId)
    requires Reachable(l)
    ensures var a := AccountOf(l.books, c);
      BalanceOf(l, c) == a.credited - a.withdrawn - a.charged && a.withdrawn <= a.credited - a.charged
  {
    ReachableInv(l);
    assert ClientBalances(l, c);
  }

  /** No lovelace appears or vanishes: what is locked is what went in less what came out. */
  lemma LovelaceIsConserved(l: Ledger)
    requires Reachable(l)
    ensures Locked(l) == l.books.paidIn - l.books.paidOut
  {
    ReachableInv(l);
  }
}

/** A deployment as the commands change it in place. Its class invariant is that a run from genesis led here. */
module Deployments {
  import opened Prelude
  import opened Charges
  import opened Deposits
  import opened FeeLedger
  import opened LedgerInvariant
  import opened PairRepair
  import opened Teardown
  import opened Validators

  class Deployment {
    var ledger: Ledger
    ghost var start: Ledger
    ghost var history: seq<Action>

    ghost predicate Valid()
      reads this
    {
      Genesis(start) && Run(start, history) == Ok(ledger)
    }

    constructor (genesis: Ledger)
      requires Genesis(genesis)
      ensures Valid() && ledger == start == genesis && history == []
    {
      ledger := genesis;
      start := genesis;
      history := [];
    }

    /** One transaction: it moves the ledger by one step, or is refused and leaves everything as it was. */
    twostate predicate Performed(a: Action, new rejection: Option<Rejection>)
      reads this
    {
      && Valid() && start == old(start)
      && match Step(old(ledger), a)
         case Ok(next) => rejection == None && ledger == next && history == old(history) + [a]
         case Err(e) => rejection == Some(e) && ledger == old(ledger) && history == old(history)
    }

    lemma ValidInv()
      requires Valid()
      ensures Reachable(ledger) && Inv(ledger)
    {
      ReachableInv(ledger);
    }

    /** The effect of a transaction once it is on chain. */
    method Commit(a: Action, next: Ledger)
      requires Valid() && Step(ledger, a) == Ok(next)
      modifies this
      ensures Performed(a, None)
    {
      RunOneMore(start, history, a);
      ledger := next;
      history := history + [a];
    }

    method Submit(a: Action) returns (rejection: Option<Rejection>)
      requires Valid()
      modifies this
      ensures Performed(a, rejection)
    {
      match Step(ledger, a)
      case Err(e) =>
        rejection := Some(e);
      case Ok(next) =>
        Commit(a, next);
        rejection := None;
    }

    // ----- the commands, guard by guard

    method TopUpReceiver(c: ClientId, amount: int) returns (rejection: Option<Rejection>)
      requires Valid()
      modifies this
      ensures Performed(TopUp(c, amount), rejection)
      ensures rejection == None ==>
                && c in old(ledger).receivers && c in ledger.receivers
                && ReceiverAccepts(SpendTopUp, old(ledger).receivers[c], ledger.receivers[c])
    {
      if c !in ledger.receivers {
        return Some(NoReceiver);
      }
      if amount <= 0 {
        return Some(NotPositive);
      }
      ValidInv();
      var next := ledger.receivers[c].state;
      next := next.(balance := next.balance + amount);
      var books := Book(ledger.books, c, amount, 0, 0);
      books := books.(paidIn := books.paidIn + amount);
      Commit(TopUp(c, amount), ledger.(receivers := ledger.receivers[c := ReceiverOutput(next)], books := books));
      return None;
    }

    method WithdrawBalance(c: ClientId, amount: int) returns (rejection: Option<Rejection>)
      requires Valid()
      modifies this
      ensures Performed(ReceiverWithdraw(c, amount), rejection)
      ensures old(ledger).config.Some? && c in old(ledger).receivers ==>
                (rejection == None
                 <==> exists next :: ReceiverAccepts(SpendWithdraw(amount), old(ledger).receivers[c], next))
    {
      if ledger.config.None? {
        return Some(NoConfig);
      }
      if c !in ledger.receivers {
        return Some(NoReceiver);
      }
      ValidInv();
      WithdrawMatchesValidator(ledger, c, amount);
      if amount <= 0 {
        return Some(NotPositive);
      }
      var next := ledger.receivers[c].state;
      if amount > next.balance {
        return Some(Rejection.Insufficient);
      }
      next := next.(balance := next.balance - amount);
      var books := Book(ledger.books, c, 0, amount, 0);
      books := books.(paidOut := books.paidOut + amount);
      Commit(ReceiverWithdraw(c, amount),
             ledger.(receivers := ledger.receivers[c := ReceiverOutput(next)], books := books));
      return None;
    }

    method ChangeReceiverMin(c: ClientId, minUtxo: int) returns (rejection: Option<Rejection>)
      requires Valid()
      modifies this
      ensures Performed(ReceiverUpdateMinUtxo(c, minUtxo), rejection)
      ensures rejection == None ==>
                && c in old(ledger).receivers && c in ledger.receivers
                && ReceiverAccepts(SpendUpdateMinUtxo(minUtxo), old(ledger).receivers[c], ledger.receivers[c])
    {
      if minUtxo <= 0 {
        return Some(NotPositive);
      }
      if ledger.config.None? {
        return Some(NoConfig);
      }
      if c !in ledger.receivers {
        return Some(NoReceiver);
      }
      ValidInv();
      var next := ledger.receivers[c].state;
      var books := Move(ledger.books, next.minUtxo, minUtxo);
      next := next.(minUtxo := minUtxo);
      Commit(ReceiverUpdateMinUtxo(c, minUtxo),
             ledger.(receivers := ledger.receivers[c := ReceiverOutput(next)], books := books));
      return None;
    }

    lemma MergeFacts(c: ClientId, listing: seq<Deposit>)
      requires Valid() && MergeStep(ledger, c, listing).Ok?
      ensures var l' := MergeStep(ledger, c, listing).value;
        && c in ledger.receivers && c in l'.receivers
        && ReceiverAccepts(SpendTopUp, ledger.receivers[c], l'.receivers[c])
        && MergeTakes(ledger, c, l')
    {
      ValidInv();
      MergeIsAccepted(ledger, c, listing);
      MergeSweeps(ledger, c, listing, MergeStep(ledger, c, listing).value);
    }

    /**
      Sweeps the deposits that pass the filter, up to the cap, in the order in which the provider lists them: nothing
      with tokens or below the floor, and the balance grows by exactly what left the address.
     */
    method MergeDepositsOf(c: ClientId, listing: seq<Deposit>) returns (rejection: Option<Rejection>)
      requires Valid()
      modifies this
      ensures Performed(MergeDeposits(c, listing), rejection)
      ensures rejection == None ==>
                && c in old(ledger).receivers && c in ledger.receivers
                && ReceiverAccepts(SpendTopUp, old(ledger).receivers[c], ledger.receivers[c])
                && MergeTakes(old(ledger), c, ledger)
    {
      hide MergeTakes, ReceiverAccepts;
      if c !in ledger.receivers {
        return Some(NoReceiver);
      }
      if multiset(listing) != multiset(DepositsOf(ledger, c)) {
        return Some(ForeignListing);
      }
      var eligible := Select(listing, ledger.params.depositMin, ledger.params.maxPerMerge);
      if eligible == [] {
        return Some(Rejection.NothingEligible);
      }
      MergeFacts(c, listing);
      var swept := TotalOf(eligible);
      var next := ledger.receivers[c].state;
      next := next.(balance := next.balance + swept);
      Commit(MergeDeposits(c, listing),
             ledger.(receivers := ledger.receivers[c := ReceiverOutput(next)],
                     deposits := ledger.deposits[c := Leftover(listing, ledger.params.depositMin, |eligible|)],
                     books := Book(ledger.books, c, swept, 0, 0)));
      return None;
    }

    lemma UpdateFacts(c: ClientId, entries: seq<Entry>, listing: seq<Deposit>, clock: Clock)
      requires Valid() && UpdateStep(ledger, c, entries, listing, clock).Ok?
      ensures var l' := UpdateStep(ledger, c, entries, listing, clock).value;
        && c in ledger.receivers && c in l'.receivers
        && ReceiverAccepts(SpendAccrueFee(ProtocolFee(ledger.params, |entries|)),
                           ledger.receivers[c], l'.receivers[c])
        && PairsAccepted(ledger, entries, clock, l'.pairs)
        && UpdateTakes(ledger, c, |entries|, listing, l')
    {
      ValidInv();
      hide UpdateTakes, ReceiverAccepts, PairsAccepted, UpdateStep, Inv;
      UpdateTakesWhatItMay(ledger, c, entries, listing, clock);
      UpdatePassesReceiver(ledger, c, entries, listing, clock);
      UpdatePassesCoordinator(ledger, c, entries, listing, clock);
    }

    /** One pass over the entries of an update. */
    static method AnyEntry(entries: seq<Entry>, bad: Entry -> bool) returns (found: bool)
      ensures found <==> exists i :: 0 <= i < |entries| && bad(entries[i])
    {
      for i := 0 to |entries|
        invariant forall k :: 0 <= k < i ==> !bad(entries[k])
      {
        if bad(entries[i]) {
          return true;
        }
      }
      return false;
    }

    /** What refuses an update before its money is looked at: the checks of the command, the builder, the chain. */
    method RefuseUpdate(c: ClientId, entries: seq<Entry>, clock: Clock) returns (rejection: Option<Rejection>)
      ensures rejection == UpdateRefusal(ledger, c, entries, clock)
    {
      var l := ledger;
      if l.hook.None? {
        return Some(NoHook);
      }
      if l.config.None? {
        return Some(NoConfig);
      }
      if c !in l.receivers {
        return Some(NoReceiver);
      }
      if entries == [] || !DistinctEntries(entries) {
        return Some(DuplicateEntry);
      }
      var refused := AnyEntry(entries, (e: Entry) => e.pair.client != c);
      if refused {
        return Some(ForeignPair);
      }
      refused := AnyEntry(entries, (e: Entry) => IsExpired(e, clock.nowMs));
      if refused {
        return Some(Rejection.Expired);
      }
      refused := AnyEntry(entries, (e: Entry) => !e.isCreate && Sole(l, e.pair).None?);
      if refused {
        return Some(NotSingle);
      }
      refused := AnyEntry(entries, (e: Entry) => IsSuperseded(l, e));
      if refused {
        return Some(Superseded);
      }
      if !(clock.validFrom <= clock.nowMs < ValidTo(entries, clock.nowMs)) {
        return Some(NoWindow);
      }
      refused := AnyEntry(entries, (e: Entry) => e.isCreate && !WithinDrift(l.params, e.quote, clock.validFrom));
      if refused {
        return Some(TooOld);
      }
      return None;
    }

    /** Updates or creates pairs, charges the fee and folds in the deposits that the caller listed. */
    method OracleUpdate(c: ClientId, entries: seq<Entry>, listing: seq<Deposit>, clock: Clock)
      returns (rejection: Option<Rejection>)
      requires Valid()
      modifies this
      ensures Performed(Update(c, entries, listing, clock), rejection)
      ensures rejection == None ==>
                && c in old(ledger).receivers && c in ledger.receivers
                && ReceiverAccepts(SpendAccrueFee(ProtocolFee(old(ledger).params, |entries|)),
                                   old(ledger).receivers[c], ledger.receivers[c])
                && PairsAccepted(old(ledger), entries, clock, ledger.pairs)
                && UpdateTakes(old(ledger), c, |entries|, listing, ledger)
    {
      hide UpdateTakes, PairsAccepted, ReceiverAccepts;
      rejection := RefuseUpdate(c, entries, clock);
      if rejection.Some? {
        return;
      }
      if listing != [] && multiset(listing) != multiset(DepositsOf(ledger, c)) {
        return Some(ForeignListing);
      }
      var fee := ProtocolFee(ledger.params, |entries|);
      var folded := Select(listing, ledger.params.depositMin, ledger.params.maxPerFold);
      var swept := TotalOf(folded);
      var next := ledger.receivers[c].state;
      next := next.(balance := next.balance - fee + swept, accrued := next.accrued + fee);
      if next.balance < 0 {
        return Some(Rejection.Insufficient);
      }
      UpdateFacts(c, entries, listing, clock);
      var pairs, created := PayPairOutputs(entries);
      var deposits := ledger.deposits;
      if listing != [] {
        deposits := deposits[c := Leftover(listing, ledger.params.depositMin, |folded|)];
      }
      var books := Book(ledger.books, c, swept, 0, fee);
      books := books.(fees := books.fees + fee, paidIn := books.paidIn + created * ledger.params.minUtxo);
      Commit(Update(c, entries, listing, clock),
             ledger.(receivers := ledger.receivers[c := ReceiverOutput(next)], pairs := pairs,
                     pairOutputs := ledger.pairOutputs + |entries|, deposits := deposits, books := books));
      return None;
    }

    /** The loops over the prepared updates: inputs that are spent, units that are minted, outputs that are paid. */
    method PayPairOutputs(entries: seq<Entry>) returns (pairs: map<nat, PairUtxo>, created: nat)
      requires Resolved(ledger, entries)
      ensures pairs == PayPairs(ledger, entries) && created == Creations(entries)
    {
      pairs, created := ledger.pairs, 0;
      for i := 0 to |entries|
        invariant pairs == PayPairs(ledger, entries[..i])
        invariant created == Creations(entries[..i])
      {
        assert entries[..i + 1][..i] == entries[..i];
        var e := entries[i];
        var paid := PairUtxo(e.pair, ledger.params.minUtxo, e.quote);
        if e.isCreate {
          created := created + 1;
        } else {
          var current := Sole(ledger, e.pair).value;
          paid := ledger.pairs[current].(quote := e.quote);
          pairs := pairs - {current};
        }
        pairs := pairs[ledger.pairOutputs + i := paid];
      }
      assert entries[..|entries|] == entries;
    }

    method WithdrawFees(amount: int) returns (rejection: Option<Rejection>)
      requires Valid()
      modifies this
      ensures Performed(HookWithdraw(amount), rejection)
      ensures old(ledger).config.Some? && old(ledger).hook.Some? ==>
                (rejection == None <==> exists next :: HookAccepts(HookPayOut(amount), old(ledger).hook.value, next))
    {
      if ledger.config.None? {
        return Some(NoConfig);
      }
      if ledger.hook.None? {
        return Some(NoHook);
      }
      ValidInv();
      HookWithdrawMatchesValidator(ledger, amount);
      if amount <= 0 {
        return Some(NotPositive);
      }
      var next := ledger.hook.value.state;
      if amount > next.accrued {
        return Some(Rejection.Insufficient);
      }
      next := next.(accrued := next.accrued - amount, withdrawn := next.withdrawn + amount);
      Commit(HookWithdraw(amount),
             ledger.(hook := Some(HookOutput(next)),
                     books := ledger.books.(paidOut := ledger.books.paidOut + amount)));
      return None;
    }

    /** A missing field of the input keeps its current value. */
    method UpdateHook(withdrawAddress: Option<string>, newMinUtxo: Option<int>) returns (rejection: Option<Rejection>)
      requires Valid()
      modifies this
      ensures Performed(HookUpdate(withdrawAddress, newMinUtxo), rejection)
      ensures rejection == None ==>
                && old(ledger).hook.Some? && ledger.hook.Some?
                && HookAccepts(HookAdminUpdate, old(ledger).hook.value, ledger.hook.value)
                && ledger.hook.value.state.withdrawAddress
                   == (match withdrawAddress
                       case Some(a) => a
                       case None => old(ledger).hook.value.state.withdrawAddress)
                && ledger.hook.value.state.minUtxo
                   == (match newMinUtxo case Some(m) => m case None => old(ledger).hook.value.state.minUtxo)
    {
      if ledger.config.None? {
        return Some(NoConfig);
      }
      if ledger.hook.None? {
        return Some(NoHook);
      }
      ValidInv();
      var current := ledger.hook.value.state;
      var next := current;
      if withdrawAddress.Some? {
        next := next.(withdrawAddress := withdrawAddress.value);
      }
      if newMinUtxo.Some? {
        next := next.(minUtxo := newMinUtxo.value);
      }
      if next.minUtxo <= 0 {
        return Some(NotPositive);
      }
      Commit(HookUpdate(withdrawAddress, newMinUtxo),
             ledger.(hook := Some(HookOutput(next)), books := Move(ledger.books, current.minUtxo, next.minUtxo)));
      return None;
    }

    lemma ReceiverMinimum(c: ClientId)
      requires Valid() && c in ledger.receivers
      ensures var u := ledger.receivers[c];
        u.lovelace == u.state.minUtxo <==> u.state.balance == 0 && u.state.accrued == 0
    {
      ValidInv();
    }

    lemma HookMinimum()
      requires Valid() && ledger.hook.Some?
      ensures var u := ledger.hook.value; u.lovelace == u.state.minUtxo <==> u.state.accrued == 0
      ensures var s := ledger.hook.value.state; s.accrued == 0 <==> s.collected == s.withdrawn
    {
      ValidInv();
    }

    /**
      Possible exactly once nothing but the minimum is left in the UTxO, which is what comes back. Neither another
      Receiver nor any client's account changes.
     */
    method DestroyReceiver(c: ClientId) returns (rejection: Option<Rejection>)
      requires Valid()
      modifies this
      ensures Performed(BurnReceiver(c), rejection)
      ensures old(ledger).config.Some? && c in old(ledger).receivers ==>
                var u := old(ledger).receivers[c]; rejection == None <==> u.lovelace == u.state.minUtxo
      ensures rejection == None ==>
                && c in old(ledger).receivers
                && ledger.books == old(ledger).books.(
                                     paidOut := old(ledger).books.paidOut + old(ledger).receivers[c].state.minUtxo)
                && ledger == old(ledger).(receivers := old(ledger).receivers - {c}, books := ledger.books)
    {
      if ledger.config.None? {
        return Some(NoConfig);
      }
      if c !in ledger.receivers {
        return Some(NoReceiver);
      }
      ReceiverMinimum(c);
      var current := ledger.receivers[c];
      if current.state.balance != 0 || current.state.accrued != 0 {
        return Some(NotDrained);
      }
      Commit(BurnReceiver(c),
             ledger.(receivers := ledger.receivers - {c},
                     books := ledger.books.(paidOut := ledger.books.paidOut + current.lovelace)));
      return None;
    }

    /** Possible exactly once every lovelace ever collected has been withdrawn; the minimum comes back. */
    method DestroyHook() returns (rejection: Option<Rejection>)
      requires Valid()
      modifies this
      ensures Performed(Action.BurnHook, rejection)
      ensures old(ledger).config.Some? && old(ledger).hook.Some? ==>
                var s := old(ledger).hook.value.state; rejection == None <==> s.collected == s.withdrawn
      ensures rejection == None ==>
                && old(ledger).hook.Some? && ledger.hook.None? && ledger.receivers == old(ledger).receivers
                && ledger.books.paidOut == old(ledger).books.paidOut + old(ledger).hook.value.state.minUtxo
                && Collected(ledger) == Collected(old(ledger))
    {
      if ledger.config.None? {
        return Some(NoConfig);
      }
      if ledger.hook.None? {
        return Some(NoHook);
      }
      HookMinimum();
      var current := ledger.hook.value;
      if current.state.accrued != 0 {
        return Some(NotDrained);
      }
      Commit(Action.BurnHook,
             ledger.(hook := None,
                     books := ledger.books.(retired := ledger.books.retired + current.state.collected,
                                            paidOut := ledger.books.paidOut + current.lovelace)));
      return None;
    }

    /** Sums the accrued fees and sets them to zero, one Receiver after the other; all must owe something. */
    static method DrainReceivers(receivers: map<ClientId, ReceiverUtxo>, clients: seq<ClientId>)
      returns (r: Option<(map<ClientId, ReceiverUtxo>, int)>)
      requires AllDifferent(clients) && forall k :: 0 <= k < |clients| ==> clients[k] in receivers
      ensures r.Some? <==> forall k :: 0 <= k < |clients| ==> receivers[clients[k]].state.accrued > 0
      ensures r.Some? ==> r.value == (Drained(receivers, clients), AccruedOf(receivers, clients))
    {
      var next, total := receivers, 0;
      for i := 0 to |clients|
        invariant next.Keys == receivers.Keys
        invariant forall k :: 0 <= k < i ==> receivers[clients[k]].state.accrued > 0
        invariant total + AccruedOf(receivers, clients[i..]) == AccruedOf(receivers, clients)
        invariant forall c :: c in receivers ==>
          next[c] == if c in clients[..i] then ReceiverOutput(receivers[c].state.(accrued := 0)) else receivers[c]
      {
        var c := clients[i];
        if next[c].state.accrued <= 0 {
          return None;
        }
        assert clients[..i + 1] == clients[..i] + [c] && clients[i..][1..] == clients[i + 1..];
        total := total + next[c].state.accrued;
        next := next[c := ReceiverOutput(next[c].state.(accrued := 0))];
      }
      assert clients[..|clients|] == clients;
      DrainedAt(receivers, clients);
      assert next == Drained(receivers, clients);
      return Some((next, total));
    }

    lemma SettleFacts(clients: seq<ClientId>)
      requires Valid() && SettleStep(ledger, clients).Ok?
      ensures var l' := SettleStep(ledger, clients).value;
        && ledger.hook.Some? && l'.hook.Some?
        && HookAccepts(HookApplySettle(AccruedOf(ledger.receivers, clients)), ledger.hook.value, l'.hook.value)
    {
      ValidInv();
      SettleIsAccepted(ledger, clients);
    }

    /** The guards of a settlement before anything is summed. */
    method RefuseSettle(clients: seq<ClientId>) returns (rejection: Option<Rejection>)
      ensures rejection.Some? ==> SettleStep(ledger, clients) == Err(rejection.value)
      ensures rejection == None ==>
                && clients != [] && AllDifferent(clients) && ledger.hook.Some? && ledger.config.Some?
                && forall k :: 0 <= k < |clients| ==> clients[k] in ledger.receivers
    {
      if clients == [] {
        return Some(NothingToSettle);
      }
      if |set c | c in clients| != |clients| {
        SetOfDistinct(clients);
        return Some(DuplicateEntry);
      }
      DistinctOfSet(clients);
      if ledger.hook.None? {
        return Some(NoHook);
      }
      for i := 0 to |clients|
        invariant forall k :: 0 <= k < i ==> clients[k] in ledger.receivers
      {
        if clients[i] !in ledger.receivers {
          return Some(NoReceiver);
        }
      }
      if ledger.config.None? {
        return Some(NoConfig);
      }
      return None;
    }

    /** Settles several clients in one transaction: the guards, the summing loop, then both kinds of output. */
    method SettleAccruedFees(clients: seq<ClientId>) returns (r: Result<int, Rejection>)
      requires Valid()
      modifies this
      ensures Valid() && start == old(start)
      ensures SettleStep(old(ledger), clients).Err? ==>
                r == Err(SettleStep(old(ledger), clients).error) && ledger == old(ledger)
      ensures SettleStep(old(ledger), clients).Ok? ==>
                r == Ok(AccruedOf(old(ledger).receivers, clients)) && ledger == SettleStep(old(ledger), clients).value
      ensures r.Ok? ==>
                && old(ledger).hook.Some? && ledger.hook.Some?
                && HookAccepts(HookApplySettle(r.value), old(ledger).hook.value, ledger.hook.value)
    {
      var refused := RefuseSettle(clients);
      if refused.Some? {
        return Err(refused.value);
      }
      var drained := DrainReceivers(ledger.receivers, clients);
      if drained.None? {
        return Err(NothingToSettle);
      }
      var (receivers, total) := drained.value;
      SettleFacts(clients);
      var h := ledger.hook.value.state;
      h := h.(accrued := h.accrued + total, collected := h.collected + total);
      Commit(Settle(clients), ledger.(receivers := receivers, hook := Some(HookOutput(h))));
      return Ok(total);
    }

    method BurnAll(pairs: seq<PairId>) returns (rejection: Option<Rejection>)
      requires Valid()
      modifies this
      ensures Valid() && start == old(start)
      ensures Outcome(BurnPairs(old(ledger), pairs), ledger, rejection)
    {
      for i := 0 to |pairs|
        invariant Valid() && start == old(start)
        invariant BurnPairs(ledger, pairs[i..]) == BurnPairs(old(ledger), pairs)
      {
        rejection := Submit(BurnPair(pairs[i]));
        if rejection.Some? {
          return;
        }
        assert pairs[i..][1..] == pairs[i + 1..];
      }
      rejection := None;
    }

    /** Drains one client's Receiver with the balance read live, burns the client's pairs, then the Receiver. */
    method TearDownOne(p: ClientPlan) returns (rejection: Option<Rejection>)
      requires Valid()
      modifies this
      ensures Valid() && start == old(start)
      ensures Outcome(TearDownClient(old(ledger), p), ledger, rejection)
    {
      hide WithdrawStep, BurnReceiverStep, BurnPairs, ReceiverAccepts, Run, Genesis;
      if p.client !in ledger.receivers {
        return Some(NoReceiver);
      }
      var remaining := ledger.receivers[p.client].state.balance;
      if remaining > 0 {
        rejection := WithdrawBalance(p.client, remaining);
        if rejection.Some? {
          return;
        }
      }
      rejection := BurnAll(p.pairs);
      if rejection.Some? {
        return;
      }
      rejection := DestroyReceiver(p.client);
    }

    method DrainAndBurnHook() returns (rejection: Option<Rejection>)
      requires Valid()
      modifies this
      ensures Valid() && start == old(start)
      ensures Outcome(TearDownHook(old(ledger)), ledger, rejection)
    {
      if ledger.hook.None? {
        return Some(NoHook);
      }
      var accrued := ledger.hook.value.state.accrued;
      if accrued > 0 {
        rejection := WithdrawFees(accrued);
        if rejection.Some? {
          return;
        }
      }
      rejection := DestroyHook();
    }

    method Reclaim(references: seq<RefId>) returns (rejection: Option<Rejection>)
      requires Valid()
      modifies this
      ensures Valid() && start == old(start)
      ensures Outcome(ReclaimAll(old(ledger), references), ledger, rejection)
    {
      for i := 0 to |references|
        invariant Valid() && start == old(start)
        invariant ReclaimAll(ledger, references[i..]) == ReclaimAll(old(ledger), references)
      {
        rejection := Submit(ReclaimReference(references[i]));
        if rejection.Some? {
          return;
        }
        assert references[i..][1..] == references[i + 1..];
      }
      rejection := None;
    }

    method TearDownEach(clients: seq<ClientPlan>) returns (rejection: Option<Rejection>)
      requires Valid()
      modifies this
      ensures Valid() && start == old(start)
      ensures Outcome(TearDownClients(old(ledger), clients), ledger, rejection)
    {
      for i := 0 to |clients|
        invariant Valid() && start == old(start)
        invariant TearDownClients(ledger, clients[i..]) == TearDownClients(old(ledger), clients)
      {
        rejection := TearDownOne(clients[i]);
        if rejection.Some? {
          return;
        }
        assert clients[i..][1..] == clients[i + 1..];
      }
      rejection := None;
    }

    method TakeApart(plan: Plan) returns (rejection: Option<Rejection>)
      requires Valid()
      modifies this
      ensures Valid() && start == old(start)
      ensures Outcome(Dismantle(old(ledger), plan), ledger, rejection)
    {
      rejection := TearDownEach(plan.clients);
      if rejection.None? {
        rejection := DrainAndBurnHook();
      }
      if rejection.None? {
        rejection := Reclaim(plan.references);
      }
      if rejection.None? {
        rejection := Submit(Action.BurnConfig);
      }
    }

    /** The burns of a repair run, one transaction each. */
    method RepairPairs(burns: seq<nat>) returns (rejection: Option<Rejection>)
      requires Valid()
      modifies this
      ensures Valid() && start == old(start)
      ensures Outcome(Run(old(ledger), Burns(burns)), ledger, rejection)
    {
      assert burns[0..] == burns;
      for i := 0 to |burns|
        invariant Valid() && start == old(start)
        invariant Run(ledger, Burns(burns[i..])) == Run(old(ledger), Burns(burns))
      {
        assert Burns(burns[i..])[1..] == Burns(burns[i + 1..]);
        rejection := Submit(BurnDuplicate(burns[i]));
        if rejection.Some? {
          return;
        }
      }
      rejection := None;
    }

    /**
      The whole teardown. With a complete listing it is refused exactly when the Config or the hook is gone already or
      some unit has two UTxOs, and otherwise leaves nothing locked but pending deposits. Stopped half way by a refusal,
      it still leaves a ledger that a run of commands explains.
     */
    method Decommission(plan: Plan) returns (rejection: Option<Rejection>)
      requires Valid()
      modifies this
      ensures Valid() && start == old(start)
      ensures Outcome(TearDown(old(ledger), plan), ledger, rejection)
      ensures Teardown.Covers(old(ledger), plan) ==>
                (rejection == None
                 <==> old(ledger).config.Some? && old(ledger).hook.Some? && NoDuplicates(old(ledger)))
      ensures Teardown.Covers(old(ledger), plan) && rejection == None ==>
                Dismantled(old(ledger), ledger) && Locked(ledger) == DepositsLocked(old(ledger))
    {
      ValidInv();
      if Teardown.Covers(ledger, plan) {
        TearDownRecoversEverything(ledger, plan);
      }
      rejection := BurnAll(plan.orphans);
      if rejection.Some? {
        return;
      }
      if plan.settle != [] {
        var settled := SettleAccruedFees(plan.settle);
        if settled.Err? {
          return Some(settled.error);
        }
      }
      rejection := TakeApart(plan);
    }
  }

  /** The deposits that a merge takes, and what the balance gains by them. */
  ghost predicate MergeTakes(l: Ledger, c: ClientId, m: Ledger)
    requires c in l.receivers && c in m.receivers
  {
    && CleanSweep(DepositsOf(l, c), DepositsOf(m, c), l.params.depositMin, l.params.maxPerMerge)
    && m.receivers[c].state.balance - l.receivers[c].state.balance
       == TotalOf(DepositsOf(l, c)) - TotalOf(DepositsOf(m, c))
  }

  /** The fee, in the Config's parameters, and the deposits that an update of `n` pairs takes. */
  ghost predicate UpdateTakes(l: Ledger, c: ClientId, n: nat, listing: seq<Deposit>, m: Ledger)
    requires c in l.receivers && c in m.receivers
  {
    && ChargedFor(l.params, n, l.receivers[c].state, m.receivers[c].state,
                  TotalOf(DepositsOf(l, c)) - TotalOf(DepositsOf(m, c)))
    && if listing == [] then DepositsOf(m, c) == DepositsOf(l, c)
       else CleanSweep(DepositsOf(l, c), DepositsOf(m, c), l.params.depositMin, l.params.maxPerFold)
  }

  lemma UpdateTakesWhatItMay(l: Ledger, c: ClientId, entries: seq<Entry>, listing: seq<Deposit>, clock: Clock)
    requires UpdateStep(l, c, entries, listing, clock).Ok?
    ensures c in l.receivers && c in UpdateStep(l, c, entries, listing, clock).value.receivers
    ensures UpdateTakes(l, c, |entries|, listing, UpdateStep(l, c, entries, listing, clock).value)
  {
    hide UpdateStep, CleanSweep;
    UpdateCharges(l, c, entries, listing, clock, UpdateStep(l, c, entries, listing, clock).value);
    UpdateSweepsClean(l, c, entries, listing, clock, UpdateStep(l, c, entries, listing, clock).value);
  }

  /** The new pair outputs are those of the entries, and the coordinator accepts every one of them. */
  ghost predicate PairsAccepted(l: Ledger, entries: seq<Entry>, clock: Clock, paid: map<nat, PairUtxo>) {
    && entries != [] && Resolved(l, entries)
    && PaidFor(l, entries, paid) && WitnessesAccepted(l, entries, clock)
  }

  lemma UpdatePassesReceiver(l: Ledger, c: ClientId, entries: seq<Entry>, listing: seq<Deposit>, clock: Clock)
    requires Inv(l) && UpdateStep(l, c, entries, listing, clock).Ok?
    ensures var m := UpdateStep(l, c, entries, listing, clock).value;
      && c in l.receivers && c in m.receivers
      && ReceiverAccepts(SpendAccrueFee(ProtocolFee(l.params, |entries|)), l.receivers[c], m.receivers[c])
  {
    UpdateMatchesValidator(l, c, entries, listing, clock);
  }

  lemma UpdatePassesCoordinator(l: Ledger, c: ClientId, entries: seq<Entry>, listing: seq<Deposit>, clock: Clock)
    requires Inv(l) && UpdateStep(l, c, entries, listing, clock).Ok?
    ensures PairsAccepted(l, entries, clock, UpdateStep(l, c, entries, listing, clock).value.pairs)
  {
    hide PaidFor, WitnessesAccepted, Drained, Select, Leftover;
    UpdatePaysPairs(l, c, entries, listing, clock);
    UpdateMatchesCoordinator(l, c, entries, clock);
  }

  /** The duplicate test by the size of a set. */
  lemma {:induction false} SetOfDistinct(s: seq<ClientId>)
    ensures AllDifferent(s) ==> |set c | c in s| == |s|
  {
    if s != [] {
      SetOfDistinct(s[1..]);
      assert s == [s[0]] + s[1..];
      assert (set c | c in s) == (set c | c in s[1..]) + {s[0]};
    }
  }

  lemma {:induction false} DistinctOfSet(s: seq<ClientId>)
    ensures |set c | c in s| <= |s|
    ensures |set c | c in s| == |s| ==> AllDifferent(s)
  {
    if s != [] {
      var tail := set c | c in s[1..];
      DistinctOfSet(s[1..]);
      assert s == [s[0]] + s[1..];
      assert (set c | c in s) == tail + {s[0]};
      if s[0] !in tail && |tail| == |s| - 1 {
        PutInFront(s[0], s[1..]);
      }
    }
  }

  lemma PutInFront(c: ClientId, s: seq<ClientId>)
    requires AllDifferent(s) && c !in s
    ensures AllDifferent([c] + s)
  {
  }

  /** A command sequence that should end in `r` ended with this ledger and this refusal. */
  predicate Outcome(r: Result<Ledger, Rejection>, ledger: Ledger, rejection: Option<Rejection>) {
    match r
    case Ok(l) => ledger == l && rejection == None
    case Err(e) => rejection == Some(e)
  }
}

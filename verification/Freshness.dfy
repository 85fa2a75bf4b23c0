/**
  The published values over whole runs: what an update does to the UTxOs of a unit, how far their values can move back,
  when a signed intent is accepted a second time, and when a unit gets a second UTxO.
 */
module Freshness {
  import opened Prelude
  import opened Deposits
  import opened FeeLedger
  import opened LedgerInvariant
  import opened PairRepair
  import opened Validators

  /** The same value, or one that is newer in both numbers. */
  predicate NotOlder(q: Quote, before: Quote) {
    q == before || IsNewer(q, before)
  }

  // ----- one update

  ghost predicate SameUtxos(l: Ledger, m: Ledger, numbers: set<nat>) {
    forall i :: i in numbers ==> i in l.pairs && i in m.pairs && m.pairs[i] == l.pairs[i]
  }

  ghost predicate Names(entries: seq<Entry>, p: PairId) {
    exists k :: 0 <= k < |entries| && entries[k].pair == p
  }

  lemma UpdatePays(l: Ledger, c: ClientId, entries: seq<Entry>, listing: seq<Deposit>, clock: Clock)
    requires PairsSound(l) && UpdateStep(l, c, entries, listing, clock).Ok?
    ensures DistinctEntries(entries) && Resolved(l, entries)
    ensures var m := UpdateStep(l, c, entries, listing, clock).value;
      PaidFor(l, entries, m.pairs) && m.pairOutputs == l.pairOutputs + |entries|
    ensures forall k :: 0 <= k < |entries| ==> !IsSuperseded(l, entries[k])
  {
    hide PaidFor, PayPairs, Sole;
    PayPairsTotals(l, entries);
  }

  /** An output that was not there before is the one that some entry paid. */
  lemma NewOutput(l: Ledger, entries: seq<Entry>, paid: map<nat, PairUtxo>, i: nat) returns (k: nat)
    requires Resolved(l, entries) && PaidFor(l, entries, paid)
    requires i in paid && i !in l.pairs
    ensures k < |entries| && i == l.pairOutputs + k && paid[i].unit == entries[k].pair
  {
    k := i - l.pairOutputs;
    assert paid[l.pairOutputs + k] == PairOutput(l, entries[k]);
  }

  lemma OldOutput(l: Ledger, entries: seq<Entry>, paid: map<nat, PairUtxo>, i: nat)
    requires Resolved(l, entries) && PaidFor(l, entries, paid) && i in l.pairs
    ensures i in paid <==> !Updates(entries, l.pairs[i].unit)
    ensures i in paid ==> paid[i] == l.pairs[i]
  {
  }

  lemma OwnOutput(l: Ledger, entries: seq<Entry>, paid: map<nat, PairUtxo>, k: nat)
    requires Resolved(l, entries) && PaidFor(l, entries, paid) && k < |entries|
    ensures l.pairOutputs + k in paid && paid[l.pairOutputs + k] == PairOutput(l, entries[k])
  {
  }

  lemma OthersStay(l: Ledger, entries: seq<Entry>, m: Ledger, p: PairId)
    requires DistinctEntries(entries) && Resolved(l, entries) && PaidFor(l, entries, m.pairs)
    requires forall k :: 0 <= k < |entries| && entries[k].pair == p ==> entries[k].isCreate
    ensures SameUtxos(l, m, Live(l, p))
    ensures forall i :: i in Live(m, p) && i !in Live(l, p) ==>
      exists k :: 0 <= k < |entries| && entries[k].pair == p && i == l.pairOutputs + k
  {
    hide PaidFor, Sole;
    assert !Updates(entries, p);
    forall i | i in Live(l, p)
      ensures i in m.pairs && m.pairs[i] == l.pairs[i]
    {
      OldOutput(l, entries, m.pairs, i);
    }
    forall i | i in Live(m, p) && i !in Live(l, p)
      ensures exists k :: 0 <= k < |entries| && entries[k].pair == p && i == l.pairOutputs + k
    {
      if i in l.pairs {
        OldOutput(l, entries, m.pairs, i);
      }
      var k := NewOutput(l, entries, m.pairs, i);
    }
  }

  lemma CreateAdds(l: Ledger, entries: seq<Entry>, m: Ledger, k: nat)
    requires DistinctEntries(entries) && Resolved(l, entries) && PaidFor(l, entries, m.pairs)
    requires k < |entries| && entries[k].isCreate
    ensures Live(m, entries[k].pair) == Live(l, entries[k].pair) + {l.pairOutputs + k}
    ensures SameUtxos(l, m, Live(l, entries[k].pair))
    ensures m.pairs[l.pairOutputs + k] == PairUtxo(entries[k].pair, l.params.minUtxo, entries[k].quote)
  {
    hide PaidFor, Sole;
    var p, n := entries[k].pair, l.pairOutputs + k;
    OthersStay(l, entries, m, p);
    OwnOutput(l, entries, m.pairs, k);
    assert Live(m, p) == Live(l, p) + {n};
  }

  lemma UpdateReplaces(l: Ledger, entries: seq<Entry>, m: Ledger, k: nat)
    requires PairsSound(l) && DistinctEntries(entries) && Resolved(l, entries) && PaidFor(l, entries, m.pairs)
    requires k < |entries| && !entries[k].isCreate
    ensures var i := Sole(l, entries[k].pair).value;
      && Live(l, entries[k].pair) == {i} && Live(m, entries[k].pair) == {l.pairOutputs + k}
      && m.pairs[l.pairOutputs + k] == l.pairs[i].(quote := entries[k].quote)
  {
    hide PaidFor;
    var p, n := entries[k].pair, l.pairOutputs + k;
    assert Updates(entries, p);
    OwnOutput(l, entries, m.pairs, k);
    forall j | j in Live(m, p)
      ensures j == n
    {
      if j in l.pairs {
        OldOutput(l, entries, m.pairs, j);
      }
      var x := NewOutput(l, entries, m.pairs, j);
    }
  }

  lemma SameLive(l: Ledger, m: Ledger, p: PairId)
    requires SameUtxos(l, m, Live(l, p))
    requires forall i :: i in Live(m, p) ==> i in Live(l, p)
    ensures Live(m, p) == Live(l, p)
  {
  }

  /** What an entry does to the UTxOs of its unit. */
  ghost predicate AdvancesAt(l: Ledger, m: Ledger, entries: seq<Entry>, k: nat)
    requires k < |entries|
  {
    var e, n := entries[k], l.pairOutputs + k;
    n in m.pairs
    && if e.isCreate then
         && Live(m, e.pair) == Live(l, e.pair) + {n} && SameUtxos(l, m, Live(l, e.pair))
         && m.pairs[n] == PairUtxo(e.pair, l.params.minUtxo, e.quote)
       else
         exists i :: i in l.pairs && Live(l, e.pair) == {i} && Live(m, e.pair) == {n}
                     && m.pairs[n] == l.pairs[i].(quote := e.quote) && IsNewer(e.quote, l.pairs[i].quote)
  }

  /**
    An update leaves the UTxOs of other units alone. A create adds one UTxO to its unit, whatever carries it already. An
    update replaces the only UTxO of its unit by one with a value newer in both numbers and the same lovelace.
   */
  lemma UpdateAdvances(l: Ledger, c: ClientId, entries: seq<Entry>, listing: seq<Deposit>, clock: Clock, p: PairId)
    requires PairsSound(l) && UpdateStep(l, c, entries, listing, clock).Ok?
    ensures var m := UpdateStep(l, c, entries, listing, clock).value;
      && (!Names(entries, p) ==> Live(m, p) == Live(l, p) && SameUtxos(l, m, Live(l, p)))
      && (forall k :: 0 <= k < |entries| && entries[k].pair == p ==> AdvancesAt(l, m, entries, k))
  {
    var m := UpdateStep(l, c, entries, listing, clock).value;
    UpdatePays(l, c, entries, listing, clock);
    hide UpdateStep, PaidFor, Live, SameUtxos;
    if !Names(entries, p) {
      OthersStay(l, entries, m, p);
      SameLive(l, m, p);
    }
    forall k | 0 <= k < |entries| && entries[k].pair == p
      ensures AdvancesAt(l, m, entries, k)
    {
      if entries[k].isCreate {
        CreateAdds(l, entries, m, k);
      } else {
        UpdateReplaces(l, entries, m, k);
      }
    }
  }

  // ----- runs

  /** Some live UTxO of the unit of `u` carries its value or a newer one. */
  ghost predicate Succeeded(l: Ledger, u: PairUtxo) {
    exists j :: j in l.pairs && l.pairs[j].unit == u.unit && NotOlder(l.pairs[j].quote, u.quote)
  }

  /** Some live UTxO of the unit of `u` has its nonce or a higher one. */
  ghost predicate Outlived(l: Ledger, u: PairUtxo) {
    exists j :: j in l.pairs && l.pairs[j].unit == u.unit && l.pairs[j].quote.nonce >= u.quote.nonce
  }

  lemma UpdateKeeps(l: Ledger, a: Action, i: nat)
    requires PairsSound(l) && i in l.pairs && a.Update? && Step(l, a).Ok?
    ensures Succeeded(Step(l, a).value, l.pairs[i])
  {
    var p, m := l.pairs[i].unit, Step(l, a).value;
    UpdateAdvances(l, a.client, a.entries, a.listing, a.clock, p);
    hide UpdateStep, Step;
    assert i in Live(l, p);
    if Names(a.entries, p) {
      var k :| 0 <= k < |a.entries| && a.entries[k].pair == p;
      assert AdvancesAt(l, m, a.entries, k);
      assert a.entries[k].isCreate ==> m.pairs[i] == l.pairs[i];
      assert !a.entries[k].isCreate ==> l.pairOutputs + k in Live(m, p);
    } else {
      assert m.pairs[i] == l.pairs[i];
    }
  }

  lemma PairStepKeeps(l: Ledger, a: Action, i: nat)
    requires PairsSound(l) && i in l.pairs && Step(l, a).Ok? && a != BurnPair(l.pairs[i].unit)
    requires a.PairUpdateMinUtxo? || a.BurnPair? || a.BurnDuplicate?
    ensures Outlived(Step(l, a).value, l.pairs[i])
    ensures !a.BurnDuplicate? ==> Succeeded(Step(l, a).value, l.pairs[i])
  {
    hide UpdateStep;
    var m := Step(l, a).value;
    if i in m.pairs {
      assert m.pairs[i] == l.pairs[i];
    } else if a.PairUpdateMinUtxo? {
      assert m.pairs[l.pairOutputs].quote == l.pairs[i].quote;
    } else {
      var j :| j in l.pairs && j != i && l.pairs[j].unit == l.pairs[i].unit
               && l.pairs[j].quote.nonce >= l.pairs[i].quote.nonce;
      assert j in m.pairs;
    }
  }

  lemma StepKeeps(l: Ledger, a: Action, i: nat)
    requires PairsSound(l) && i in l.pairs && Step(l, a).Ok? && a != BurnPair(l.pairs[i].unit)
    ensures Outlived(Step(l, a).value, l.pairs[i])
    ensures !a.BurnDuplicate? ==> Succeeded(Step(l, a).value, l.pairs[i])
  {
    hide UpdateStep;
    var m := Step(l, a).value;
    if a.Update? {
      UpdateKeeps(l, a, i);
      var j :| j in m.pairs && m.pairs[j].unit == l.pairs[i].unit && NotOlder(m.pairs[j].quote, l.pairs[i].quote);
    } else if a.PairUpdateMinUtxo? || a.BurnPair? || a.BurnDuplicate? {
      PairStepKeeps(l, a, i);
    } else {
      assert m.pairs == l.pairs;
    }
  }

  /** Over every run without a burn of its pair or a repair, a live value never gives way to an older one. */
  lemma {:induction false} QuotesOnlyAdvance(l: Ledger, actions: seq<Action>, i: nat)
    requires Inv(l) && i in l.pairs && Run(l, actions).Ok?
    requires BurnPair(l.pairs[i].unit) !in actions && forall a :: a in actions ==> !a.BurnDuplicate?
    ensures Succeeded(Run(l, actions).value, l.pairs[i])
    decreases |actions|
  {
    if actions == [] {
      assert NotOlder(l.pairs[i].quote, l.pairs[i].quote);
    } else {
      var a, m := actions[0], Step(l, actions[0]).value;
      assert actions == [a] + actions[1..];
      StepKeeps(l, a, i);
      StepKeepsInv(l, a);
      hide Step, Inv;
      var j :| j in m.pairs && m.pairs[j].unit == l.pairs[i].unit && NotOlder(m.pairs[j].quote, l.pairs[i].quote);
      QuotesOnlyAdvance(m, actions[1..], j);
    }
  }

  /** Over every run without a burn of its pair, repairs included, the highest nonce of a unit never falls. */
  lemma {:induction false} HighestNonceStays(l: Ledger, actions: seq<Action>, i: nat)
    requires Inv(l) && i in l.pairs && Run(l, actions).Ok? && BurnPair(l.pairs[i].unit) !in actions
    ensures Outlived(Run(l, actions).value, l.pairs[i])
    decreases |actions|
  {
    if actions == [] {
      assert l.pairs[i].quote.nonce >= l.pairs[i].quote.nonce;
    } else {
      var a, m := actions[0], Step(l, actions[0]).value;
      assert actions == [a] + actions[1..];
      StepKeeps(l, a, i);
      StepKeepsInv(l, a);
      hide Step, Inv;
      var j :| j in m.pairs && m.pairs[j].unit == l.pairs[i].unit && m.pairs[j].quote.nonce >= l.pairs[i].quote.nonce;
      HighestNonceStays(m, actions[1..], j);
    }
  }

  // ----- time

  /** An update can only land while every intent in it has more than a minute left. */
  predicate InTime(e: Entry, clock: Clock) {
    clock.validFrom <= clock.nowMs < e.expiry * 1000 - 60000
  }

  /** What the expiry check, the choice of the range's end and the chain's own test of the range come to together. */
  lemma LandsInTimeExactly(entries: seq<Entry>, clock: Clock)
    requires entries != []
    ensures (forall k :: 0 <= k < |entries| ==> !IsExpired(entries[k], clock.nowMs))
            && clock.validFrom <= clock.nowMs < ValidTo(entries, clock.nowMs)
       <==> forall k :: 0 <= k < |entries| ==> InTime(entries[k], clock)
  {
    EarliestIsLeast(entries);
    var first :| 0 <= first < |entries| && EarliestExpiry(entries) == entries[first].expiry;
    if forall k :: 0 <= k < |entries| ==> InTime(entries[k], clock) {
      assert InTime(entries[first], clock);
    }
  }

  /** The end of the range is the latest that is half an hour away at most and a minute before any intent expires. */
  lemma RangeEndsAsLateAsAllowed(entries: seq<Entry>, nowMs: nat, end: int)
    requires entries != []
    ensures end <= ValidTo(entries, nowMs)
       <==> end <= nowMs + 1800000 && forall k :: 0 <= k < |entries| ==> end <= entries[k].expiry * 1000 - 60000
  {
    EarliestIsLeast(entries);
    var first :| 0 <= first < |entries| && EarliestExpiry(entries) == entries[first].expiry;
  }

  /**
    The expiry check lets some intents through that cannot land any more: those without an expiry, for ever, and the
    others from a minute before they expire.
   */
  lemma PassesButCannotLandExactly(e: Entry, clock: Clock)
    requires clock.validFrom <= clock.nowMs
    ensures !IsExpired(e, clock.nowMs) && !InTime(e, clock)
       <==> e.expiry == 0 || e.expiry * 1000 - 60000 <= clock.nowMs < (e.expiry + 1) * 1000
  {
  }

  /** An intent whose expiry is 0 counts as one that never expires, yet no update with it is ever accepted. */
  lemma ZeroExpiryNeverLands(l: Ledger, c: ClientId, entries: seq<Entry>, listing: seq<Deposit>, clock: Clock, k: nat)
    requires k < |entries| && entries[k].expiry == 0
    ensures !IsExpired(entries[k], clock.nowMs)
    ensures UpdateStep(l, c, entries, listing, clock).Err?
  {
    LandsInTimeExactly(entries, clock);
    assert !InTime(entries[k], clock);
  }

  // ----- when an intent is accepted

  /** What the deployment needs for an update of one pair, whatever its intent says. */
  predicate Ready(l: Ledger, c: ClientId) {
    && l.hook.Some? && l.config.Some? && c in l.receivers
    && l.receivers[c].state.balance >= l.params.baseFee + l.params.perPairFee
  }

  lemma SoleExactly(l: Ledger, p: PairId, i: nat)
    ensures Sole(l, p) == Some(i) <==> Live(l, p) == {i}
  {
    if Live(l, p) == {i} {
      assert i in Live(l, p);
    }
    if Sole(l, p) == Some(i) {
      assert forall j :: j in Live(l, p) ==> j == i;
    }
  }

  /** What the chain compares an update entry with: the one UTxO of its unit, older in both numbers. */
  ghost predicate HasOneToBeat(l: Ledger, e: Entry) {
    exists i :: i in l.pairs && Live(l, e.pair) == {i}
                && e.quote.timestamp > l.pairs[i].quote.timestamp && e.quote.nonce > l.pairs[i].quote.nonce
  }

  lemma BeatsExactly(l: Ledger, e: Entry)
    requires !e.isCreate
    ensures Sole(l, e.pair).Some? && !IsSuperseded(l, e) <==> HasOneToBeat(l, e)
  {
    if Sole(l, e.pair).Some? {
      SoleExactly(l, e.pair, Sole(l, e.pair).value);
    }
    if i :| i in l.pairs && Live(l, e.pair) == {i} && e.quote.timestamp > l.pairs[i].quote.timestamp
            && e.quote.nonce > l.pairs[i].quote.nonce {
      SoleExactly(l, e.pair, i);
    }
  }

  /** What one entry must meet, created or updated. */
  ghost predicate EntryPasses(l: Ledger, e: Entry, clock: Clock) {
    && InTime(e, clock)
    && if e.isCreate then e.quote.timestamp * 1000 >= clock.validFrom - l.params.maxDrift * 1000
       else HasOneToBeat(l, e)
  }

  lemma EntriesPassExactly(l: Ledger, c: ClientId, entries: seq<Entry>, clock: Clock)
    requires l.hook.Some? && l.config.Some? && c in l.receivers && entries != [] && DistinctEntries(entries)
    ensures UpdateRefusal(l, c, entries, clock).None?
       <==> forall k :: 0 <= k < |entries| ==> entries[k].pair.client == c && EntryPasses(l, entries[k], clock)
  {
    hide Sole, Live, ValidTo, InTime, HasOneToBeat, IsSuperseded, IsExpired;
    LandsInTimeExactly(entries, clock);
    forall k | 0 <= k < |entries| && !entries[k].isCreate
      ensures Sole(l, entries[k].pair).Some? && !IsSuperseded(l, entries[k]) <==> HasOneToBeat(l, entries[k])
    {
      BeatsExactly(l, entries[k]);
    }
    if UpdateRefusal(l, c, entries, clock).None? {
      assert forall k :: 0 <= k < |entries| ==> InTime(entries[k], clock);
      forall k | 0 <= k < |entries|
        ensures entries[k].pair.client == c && EntryPasses(l, entries[k], clock)
      {
        assert !entries[k].isCreate ==> !IsSuperseded(l, entries[k]) && Sole(l, entries[k].pair).Some?;
      }
    }
    if forall k :: 0 <= k < |entries| ==> entries[k].pair.client == c && EntryPasses(l, entries[k], clock) {
      assert forall k :: 0 <= k < |entries| ==> InTime(entries[k], clock);
      CreatesAreNotSuperseded(l, entries);
    }
  }

  lemma CreatesAreNotSuperseded(l: Ledger, entries: seq<Entry>)
    ensures forall k :: 0 <= k < |entries| && entries[k].isCreate ==> !IsSuperseded(l, entries[k])
  {
  }

  /**
    When a batch is accepted: the deployment is live, no unit is named twice, every pair is the client's own and passes,
    the deposits are the address's own, and balance and sweep cover one base fee and one fee for every pair.
   */
  lemma BatchAcceptedExactly(l: Ledger, c: ClientId, entries: seq<Entry>, listing: seq<Deposit>, clock: Clock)
    ensures UpdateStep(l, c, entries, listing, clock).Ok?
       <==> && l.hook.Some? && l.config.Some? && c in l.receivers && entries != []
            && (forall i, j :: 0 <= i < j < |entries| ==> entries[i].pair != entries[j].pair)
            && (forall k :: 0 <= k < |entries| ==>
                  entries[k].pair.client == c && EntryPasses(l, entries[k], clock))
            && (listing == [] || multiset(listing) == multiset(DepositsOf(l, c)))
            && l.receivers[c].state.balance + TotalOf(Select(listing, l.params.depositMin, l.params.maxPerFold))
               >= l.params.baseFee + |entries| * l.params.perPairFee
  {
    hide EntryPasses, PayPairs, Creations, Leftover, Select;
    if l.hook.Some? && l.config.Some? && c in l.receivers && entries != [] && DistinctEntries(entries) {
      EntriesPassExactly(l, c, entries, clock);
      hide UpdateRefusal;
    }
  }

  /** An update of one pair that folds in no deposits. */
  function UpdateOne(l: Ledger, e: Entry, clock: Clock): Result<Ledger, Rejection> {
    UpdateStep(l, e.pair.client, [e], [], clock)
  }

  lemma AcceptedExactly(l: Ledger, e: Entry, clock: Clock)
    ensures UpdateOne(l, e, clock).Ok? <==> Ready(l, e.pair.client) && EntryPasses(l, e, clock)
  {
    var none: seq<Deposit> := [];
    assert Select(none, l.params.depositMin, l.params.maxPerFold) == [];
    BatchAcceptedExactly(l, e.pair.client, [e], none, clock);
    assert [e][0] == e;
  }

  lemma Published(l: Ledger, first: Action, i: nat, m: Ledger)
    requires Inv(l) && first.Update? && Step(l, first) == Ok(m) && i < |first.entries|
    ensures Inv(m) && l.pairOutputs + i in m.pairs && first.entries[i].pair.client == first.client
    ensures m.pairs[l.pairOutputs + i].unit == first.entries[i].pair
    ensures m.pairs[l.pairOutputs + i].quote == first.entries[i].quote
  {
    StepKeepsInv(l, first);
    UpdatePays(l, first.client, first.entries, first.listing, first.clock);
    OwnOutput(l, first.entries, m.pairs, i);
  }

  /**
    Once an intent has been published, no update that spends the pair takes it again, nor one with a lower nonce, in a
    batch of any size, until the pair is burned.
   */
  lemma ReplayIsRefused(l: Ledger, first: Action, i: nat, m: Ledger, between: seq<Action>, later: Ledger,
                        again: Action, j: nat)
    requires Inv(l) && first.Update? && Step(l, first) == Ok(m) && i < |first.entries|
    requires Run(m, between) == Ok(later) && BurnPair(first.entries[i].pair) !in between
    requires again.Update? && j < |again.entries| && again.entries[j].pair == first.entries[i].pair
    requires !again.entries[j].isCreate && again.entries[j].quote.nonce <= first.entries[i].quote.nonce
    ensures Step(later, again).Err?
  {
    hide Inv, Run, Outlived, Step, UpdateStep;
    Published(l, first, i, m);
    HighestNonceStays(m, between, l.pairOutputs + i);
    RefusedByHigherNonce(later, m.pairs[l.pairOutputs + i], again, j);
  }

  lemma RefusedByHigherNonce(l: Ledger, u: PairUtxo, again: Action, j: nat)
    requires Outlived(l, u) && again.Update? && j < |again.entries| && again.entries[j].pair == u.unit
    requires !again.entries[j].isCreate && again.entries[j].quote.nonce <= u.quote.nonce
    ensures Step(l, again).Err?
  {
    var i :| i in l.pairs && l.pairs[i].unit == u.unit && l.pairs[i].quote.nonce >= u.quote.nonce;
    if Resolved(l, again.entries) {
      assert IsSuperseded(l, again.entries[j]);
    }
  }

  /**
    When a published intent, or one with a lower nonce, is accepted after any run. As an update: never, until the pair
    is burned. As a create, which a missing local file is enough for: exactly while it is within the drift and in time
    and the fee can be paid, whether the pair is live or not.
   */
  lemma ReplayedExactlyAsCreate(l: Ledger, first: Action, i: nat, m: Ledger, between: seq<Action>, later: Ledger,
                                e: Entry, clock: Clock)
    requires Inv(l) && first.Update? && Step(l, first) == Ok(m) && i < |first.entries|
    requires Run(m, between) == Ok(later)
    requires e.pair == first.entries[i].pair && e.quote.nonce <= first.entries[i].quote.nonce
    requires e.isCreate || BurnPair(e.pair) !in between
    ensures UpdateOne(later, e, clock).Ok?
       <==> && e.isCreate && e.quote.timestamp * 1000 >= clock.validFrom - later.params.maxDrift * 1000
            && InTime(e, clock) && Ready(later, first.client)
  {
    Published(l, first, i, m);
    AcceptedExactly(later, e, clock);
    if !e.isCreate {
      var again := Update(e.pair.client, [e], [], clock);
      ReplayIsRefused(l, first, i, m, between, later, again, 0);
      assert Step(later, again) == UpdateOne(later, e, clock);
    }
  }

  // ----- the second UTxO of a unit

  lemma RunOfTwo(l: Ledger, a: Action, b: Action)
    requires Step(l, a).Ok?
    ensures Run(l, [a, b]) == Step(Step(l, a).value, b)
  {
    var first := Step(l, a).value;
    assert [a, b][1..] == [b] && [b][1..] == [];
    assert Run(first, [b]) == Step(first, b);
  }

  lemma CreateEffect(l: Ledger, e: Entry, clock: Clock, m: Ledger)
    requires Inv(l) && e.isCreate && UpdateOne(l, e, clock) == Ok(m)
    ensures Live(m, e.pair) == Live(l, e.pair) + {l.pairOutputs} && SameUtxos(l, m, Live(l, e.pair))
    ensures m.pairs[l.pairOutputs] == PairUtxo(e.pair, l.params.minUtxo, e.quote)
    ensures m.pairOutputs == l.pairOutputs + 1 && m.params == l.params && m.hook == l.hook && m.config == l.config
    ensures e.pair.client in l.receivers && e.pair.client in m.receivers
    ensures m.receivers[e.pair.client].state.balance
         == l.receivers[e.pair.client].state.balance - l.params.baseFee - l.params.perPairFee
  {
    UpdateAdvances(l, e.pair.client, [e], [], clock, e.pair);
    assert [e][0].pair == e.pair;
    assert AdvancesAt(l, m, [e], 0);
    var none: seq<Deposit> := [];
    assert Select(none, l.params.depositMin, l.params.maxPerFold) == [];
  }

  lemma CreateThenCreate(l: Ledger, e: Entry, f: Entry, clock: Clock, once: Ledger)
    requires Inv(l) && e.isCreate && f.isCreate && f.pair == e.pair
    requires UpdateOne(l, e, clock) == Ok(once) && UpdateOne(l, f, clock).Ok?
    requires e.pair.client in l.receivers
    requires l.receivers[e.pair.client].state.balance >= 2 * (l.params.baseFee + l.params.perPairFee)
    ensures Inv(once) && UpdateOne(once, f, clock).Ok?
  {
    var create := Update(e.pair.client, [e], [], clock);
    assert Step(l, create) == Ok(once);
    StepKeepsInv(l, create);
    CreateEffect(l, e, clock, once);
    AcceptedExactly(l, f, clock);
    hide UpdateOne, Inv, Live, SameUtxos;
    AcceptedExactly(once, f, clock);
  }

  /** Two creates of one unit, each of which could land, land one after the other and leave two new UTxOs. */
  lemma TwoCreatesLand(l: Ledger, e: Entry, f: Entry, clock: Clock) returns (once: Ledger, twice: Ledger)
    requires Inv(l) && e.isCreate && f.isCreate && f.pair == e.pair
    requires UpdateOne(l, e, clock).Ok? && UpdateOne(l, f, clock).Ok? && e.pair.client in l.receivers
    requires l.receivers[e.pair.client].state.balance >= 2 * (l.params.baseFee + l.params.perPairFee)
    ensures UpdateOne(l, e, clock) == Ok(once) && UpdateOne(once, f, clock) == Ok(twice)
    ensures Live(twice, e.pair) == Live(l, e.pair) + {l.pairOutputs, l.pairOutputs + 1}
    ensures twice.pairs[l.pairOutputs] == PairUtxo(e.pair, l.params.minUtxo, e.quote)
    ensures twice.pairs[l.pairOutputs + 1] == PairUtxo(e.pair, l.params.minUtxo, f.quote)
    ensures twice.config.Some? && Sole(twice, e.pair).None?
  {
    AcceptedExactly(l, e, clock);
    hide UpdateOne, Inv, Sole, ProtocolFee;
    var n := l.pairOutputs;
    once := UpdateOne(l, e, clock).value;
    CreateThenCreate(l, e, f, clock, once);
    CreateEffect(l, e, clock, once);
    twice := UpdateOne(once, f, clock).value;
    CreateEffect(once, f, clock, twice);
    assert n in Live(once, e.pair) && n in Live(twice, e.pair) && n + 1 in Live(twice, e.pair);
    TwoAreNotSole(twice, n, n + 1);
  }

  /**
    With funds for two fees, a create that is accepted once is accepted again at once, word for word: the unit then has
    two UTxOs of one value, and no command resolves it any more.
   */
  lemma DoubleCreateLands(l: Ledger, e: Entry, clock: Clock)
    requires Inv(l) && e.isCreate && UpdateOne(l, e, clock).Ok? && e.pair.client in l.receivers
    requires l.receivers[e.pair.client].state.balance >= 2 * (l.params.baseFee + l.params.perPairFee)
    ensures var create := Update(e.pair.client, [e], [], clock);
      && Run(l, [create, create]).Ok?
      && var m := Run(l, [create, create]).value;
         && Live(m, e.pair) == Live(l, e.pair) + {l.pairOutputs, l.pairOutputs + 1}
         && m.pairs[l.pairOutputs] == m.pairs[l.pairOutputs + 1] == PairUtxo(e.pair, l.params.minUtxo, e.quote)
         && Sole(m, e.pair).None?
  {
    hide UpdateStep, Run, Inv, Sole, ProtocolFee, Live;
    var create := Update(e.pair.client, [e], [], clock);
    var once, twice := TwoCreatesLand(l, e, e, clock);
    assert Step(l, create) == Ok(once) && Step(once, create) == Ok(twice);
    RunOfTwo(l, create, create);
  }

  /** A unit with several UTxOs can be neither updated nor burned nor given another minimum: only a repair helps. */
  lemma DuplicatesBlock(l: Ledger, p: PairId, a: Action)
    requires Sole(l, p).None?
    requires || a == BurnPair(p) || (a.PairUpdateMinUtxo? && a.pair == p)
             || (a.Update? && exists k :: 0 <= k < |a.entries| && a.entries[k].pair == p && !a.entries[k].isCreate)
    ensures Step(l, a).Err?
  {
  }

  lemma OthersDuplicate(l: Ledger, a: Action)
    requires Inv(l) && NoDuplicates(l) && Step(l, a).Ok? && !a.Update?
    ensures NoDuplicates(Step(l, a).value)
  {
    hide UpdateStep, Inv;
    var m := Step(l, a).value;
    forall p | p in Units(m)
      ensures Sole(m, p).Some?
    {
      var i :| i in m.pairs && m.pairs[i].unit == p;
      assert p in Units(l);
      forall j | j in m.pairs && m.pairs[j].unit == p
        ensures j == i
      {
      }
      SoleIs(m, i);
    }
  }

  lemma UpdateDuplicates(l: Ledger, a: Action)
    requires Inv(l) && NoDuplicates(l) && Step(l, a).Ok? && a.Update?
    ensures NoDuplicates(Step(l, a).value)
       <==> !exists k :: 0 <= k < |a.entries| && a.entries[k].isCreate && a.entries[k].pair in Units(l)
  {
    var m := Step(l, a).value;
    forall p
      ensures p in Units(m) && Sole(m, p).None?
         <==> exists k :: 0 <= k < |a.entries| && a.entries[k].pair == p && a.entries[k].isCreate && p in Units(l)
    {
      UpdateAdvances(l, a.client, a.entries, a.listing, a.clock, p);
      DuplicatedAt(l, m, a.entries, p);
    }
  }

  lemma DuplicatedAt(l: Ledger, m: Ledger, entries: seq<Entry>, p: PairId)
    requires NoDuplicates(l) && DistinctEntries(entries)
    requires !Names(entries, p) ==> Live(m, p) == Live(l, p)
    requires forall k :: 0 <= k < |entries| && entries[k].pair == p ==> AdvancesAt(l, m, entries, k)
    requires forall i :: i in l.pairs ==> i < l.pairOutputs
    ensures p in Units(m) && Sole(m, p).None?
       <==> exists k :: 0 <= k < |entries| && entries[k].pair == p && entries[k].isCreate && p in Units(l)
  {
    UnitIsLive(l, p);
    UnitIsLive(m, p);
    if Names(entries, p) {
      var k :| 0 <= k < |entries| && entries[k].pair == p;
      assert AdvancesAt(l, m, entries, k);
      var n := l.pairOutputs + k;
      assert n in Live(m, p);
      if entries[k].isCreate && p in Units(l) {
        var i :| i in Live(l, p);
        assert i in Live(m, p);
        TwoAreNotSole(m, i, n);
      } else {
        assert Live(m, p) == {n};
        assert forall j :: j in m.pairs && m.pairs[j].unit == p ==> j in Live(m, p);
        SoleIs(m, n);
      }
    } else {
      SoleSame(l, m, p);
      assert p in Units(m) ==> Sole(l, p).Some?;
    }
  }

  /** Exactly the creates of live units break the rule of one UTxO for every unit. */
  lemma DuplicatesAppearExactly(l: Ledger, a: Action)
    requires Inv(l) && NoDuplicates(l) && Step(l, a).Ok?
    ensures NoDuplicates(Step(l, a).value)
       <==> !(a.Update?
              && exists k :: 0 <= k < |a.entries| && a.entries[k].isCreate && a.entries[k].pair in Units(l))
  {
    if a.Update? {
      UpdateDuplicates(l, a);
    } else {
      OthersDuplicate(l, a);
    }
  }

  // ----- inputs

  lemma FirstClient(l: Ledger, c: ClientId)
    requires Genesis(l)
    ensures BootstrapReceiverStep(l, c, 1).Ok?
    ensures var m := BootstrapReceiverStep(l, c, 1).value;
      && m.params == l.params && m.pairs == map[] && m.config.Some? && m.hook.Some?
      && c in m.receivers && m.receivers[c].state.balance == 0
  {
  }

  /** A reachable ledger in which one client can pay every fee. */
  lemma FundedLedger() returns (l: Ledger, c: ClientId)
    ensures Reachable(l) && Inv(l) && Ready(l, c) && l.pairs == map[]
    ensures l.params.baseFee == l.params.perPairFee == l.params.maxDrift == 0
  {
    hide Reachable, Inv, BootstrapReceiverStep, Run, Genesis;
    c := ClientId("c");
    FreeDeploymentIsReachable();
    FirstClient(FreeDeployment(), c);
    var bootstrap := BootstrapReceiver(c, 1);
    assert Step(FreeDeployment(), bootstrap) == BootstrapReceiverStep(FreeDeployment(), c, 1);
    ReachableStep(FreeDeployment(), bootstrap);
    l := BootstrapReceiverStep(FreeDeployment(), c, 1).value;
    ReachableInv(l);
    assert l.params.baseFee == 0 && l.params.perPairFee == 0;
  }

  /** Nothing keeps a run from giving one unit two UTxOs. */
  lemma DuplicatesAreReachable()
    ensures exists l: Ledger :: Reachable(l) && !NoDuplicates(l)
  {
    hide Reachable, Inv, UpdateStep, Sole, Live;
    var l, c := FundedLedger();
    var e, clock := Entry(PairId(c, "p"), true, Quote(0, 1, 1), 1000), Clock(0, 0);
    AcceptedExactly(l, e, clock);
    var once, twice := TwoCreatesLand(l, e, e, clock);
    var create := Update(c, [e], [], clock);
    assert Step(l, create) == Ok(once) && Step(once, create) == Ok(twice);
    ReachableStep(l, create);
    ReachableStep(once, create);
    UnitIsLive(twice, e.pair);
    assert l.pairOutputs in Live(twice, e.pair);
  }

  /** A repair burn keeps a successor of the value it burns exactly when another UTxO of the unit is one already. */
  lemma BurnKeepsValueExactly(l: Ledger, i: nat)
    requires BurnDuplicateStep(l, i).Ok?
    ensures Succeeded(BurnDuplicateStep(l, i).value, l.pairs[i])
       <==> exists j :: j in l.pairs && j != i && l.pairs[j].unit == l.pairs[i].unit
                        && NotOlder(l.pairs[j].quote, l.pairs[i].quote)
  {
    var m := BurnDuplicateStep(l, i).value;
    forall j | j in l.pairs && j != i
      ensures j in m.pairs && m.pairs[j] == l.pairs[j]
    {
    }
  }

  /**
    The highest nonce need not be the latest value. Two creates are not compared: where the second has the higher nonce
    and the earlier timestamp, the repair burns the later value.
   */
  lemma RepairCanMoveBack(l: Ledger, e: Entry, f: Entry, clock: Clock)
    requires Inv(l) && e.isCreate && f.isCreate && f.pair == e.pair && Live(l, e.pair) == {}
    requires UpdateOne(l, e, clock).Ok? && UpdateOne(l, f, clock).Ok? && e.pair.client in l.receivers
    requires l.receivers[e.pair.client].state.balance >= 2 * (l.params.baseFee + l.params.perPairFee)
    requires f.quote.nonce > e.quote.nonce && f.quote.timestamp < e.quote.timestamp
    ensures var n := l.pairOutputs;
      && UpdateOne(UpdateOne(l, e, clock).value, f, clock).Ok?
      && var twice := UpdateOne(UpdateOne(l, e, clock).value, f, clock).value;
         && BurnDuplicateStep(twice, n).Ok? && twice.pairs[n].quote == e.quote
         && !Succeeded(BurnDuplicateStep(twice, n).value, twice.pairs[n])
  {
    hide UpdateOne, UpdateStep, Inv, Sole, Succeeded, BurnDuplicateStep;
    var once, twice := TwoCreatesLand(l, e, f, clock);
    assert l.pairOutputs in Live(twice, e.pair) && l.pairOutputs + 1 in Live(twice, e.pair);
    GoesBack(twice, l.pairOutputs, l.pairOutputs + 1);
  }

  lemma GoesBack(l: Ledger, i: nat, j: nat)
    requires l.config.Some? && i in l.pairs && j in l.pairs && Live(l, l.pairs[i].unit) == {i, j}
    requires l.pairs[j].quote.nonce > l.pairs[i].quote.nonce && l.pairs[j].quote.timestamp < l.pairs[i].quote.timestamp
    ensures BurnDuplicateStep(l, i).Ok? && !Succeeded(BurnDuplicateStep(l, i).value, l.pairs[i])
  {
    assert j in Live(l, l.pairs[i].unit) && HasRival(l, i);
    assert forall k :: k in l.pairs && l.pairs[k].unit == l.pairs[i].unit ==> k in Live(l, l.pairs[i].unit);
    BurnKeepsValueExactly(l, i);
  }
}

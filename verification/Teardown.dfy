/**
  Decommissioning a deployment (emulator/protocol-flow.ts): burn pairs, settle, withdraw, burn the Receivers, drain and
  burn the hook, reclaim the reference scripts, burn the Config. Every amount is read from the live ledger. A pair burn
  names a unit and needs one UTxO to resolve it to, so duplicated pairs have to be repaired first.
 */
module Teardown {
  import opened Prelude
  import opened Folds
  import opened Deposits
  import opened FeeLedger
  import opened LedgerInvariant
  import opened PairRepair

  datatype ClientPlan = ClientPlan(client: ClientId, pairs: seq<PairId>)

  /** What the state files of a deployment list. `orphans` are pairs whose Receiver has already been burned. */
  datatype Plan = Plan(
    orphans: seq<PairId>, settle: seq<ClientId>, clients: seq<ClientPlan>, references: seq<RefId>)

  function BurnPairs(l: Ledger, pairs: seq<PairId>): Result<Ledger, Rejection>
    decreases |pairs|
  {
    if pairs == [] then Ok(l)
    else
      var next :- BurnPairStep(l, pairs[0]);
      BurnPairs(next, pairs[1..])
  }

  function WithdrawAll(l: Ledger, c: ClientId): Result<Ledger, Rejection> {
    if c !in l.receivers then Err(NoReceiver)
    else if l.receivers[c].state.balance > 0 then WithdrawStep(l, c, l.receivers[c].state.balance)
    else Ok(l)
  }

  function TearDownClient(l: Ledger, p: ClientPlan): Result<Ledger, Rejection> {
    var drained :- WithdrawAll(l, p.client);
    var bare :- BurnPairs(drained, p.pairs);
    BurnReceiverStep(bare, p.client)
  }

  function TearDownClients(l: Ledger, clients: seq<ClientPlan>): Result<Ledger, Rejection>
    decreases |clients|
  {
    if clients == [] then Ok(l)
    else
      var next :- TearDownClient(l, clients[0]);
      TearDownClients(next, clients[1..])
  }

  function TearDownHook(l: Ledger): Result<Ledger, Rejection> {
    if l.hook.None? then Err(NoHook)
    else
      var accrued := l.hook.value.state.accrued;
      var drained :- if accrued > 0 then HookWithdrawStep(l, accrued) else Ok(l);
      BurnHookStep(drained)
  }

  function ReclaimAll(l: Ledger, references: seq<RefId>): Result<Ledger, Rejection>
    decreases |references|
  {
    if references == [] then Ok(l)
    else
      var next :- ReclaimStep(l, references[0]);
      ReclaimAll(next, references[1..])
  }

  function SettleAll(l: Ledger, clients: seq<ClientId>): Result<Ledger, Rejection> {
    if clients == [] then Ok(l) else SettleStep(l, clients)
  }

  /** What follows once no fees are left in the Receivers. */
  function Dismantle(l: Ledger, plan: Plan): Result<Ledger, Rejection> {
    var clientless :- TearDownClients(l, plan.clients);
    var hookless :- TearDownHook(clientless);
    var bare :- ReclaimAll(hookless, plan.references);
    BurnConfigStep(bare)
  }

  function TearDown(l: Ledger, plan: Plan): Result<Ledger, Rejection> {
    var pruned :- BurnPairs(l, plan.orphans);
    var settled :- SettleAll(pruned, plan.settle);
    Dismantle(settled, plan)
  }

  // ----- plans that list everything there is, once

  ghost predicate Enumerates<T(!new)>(s: seq<T>, all: set<T>) {
    Distinct(s) && forall x :: x in s <==> x in all
  }

  function Ids(clients: seq<ClientPlan>): (ids: seq<ClientId>)
    ensures |ids| == |clients| && forall k :: 0 <= k < |ids| ==> ids[k] == clients[k].client
  {
    seq(|clients|, k requires 0 <= k < |clients| => clients[k].client)
  }

  function PairsOf(l: Ledger, c: ClientId): set<PairId> {
    set p | p in Units(l) && p.client == c
  }

  function Orphans(l: Ledger): set<PairId> {
    set p | p in Units(l) && p.client !in l.receivers
  }

  function Owing(l: Ledger): set<ClientId> {
    set c | c in l.receivers && l.receivers[c].state.accrued > 0
  }

  ghost predicate ClientsListed(l: Ledger, clients: seq<ClientPlan>) {
    && Enumerates(Ids(clients), l.receivers.Keys)
    && forall k :: 0 <= k < |clients| ==> Enumerates(clients[k].pairs, PairsOf(l, clients[k].client))
  }

  ghost predicate Covers(l: Ledger, plan: Plan) {
    && Enumerates(plan.orphans, Orphans(l))
    && Enumerates(plan.settle, Owing(l))
    && ClientsListed(l, plan.clients)
    && Enumerates(plan.references, l.references.Keys)
  }

  lemma TailEnumerates<T(!new)>(s: seq<T>, all: set<T>)
    requires Enumerates(s, all) && s != []
    ensures s[0] in all && Enumerates(s[1..], all - {s[0]})
  {
    assert s == [s[0]] + s[1..];
  }

  // ----- the phases, one by one

  /** What no phase but the last changes. */
  predicate Kept(l: Ledger, m: Ledger) {
    m.config == l.config && m.params == l.params && m.deposits == l.deposits && m.books.paidIn == l.books.paidIn
  }

  /** The UTxOs of some units. */
  function Carrying(l: Ledger, units: seq<PairId>): set<nat> {
    set i | i in l.pairs && l.pairs[i].unit in units
  }

  ghost predicate AllSole(l: Ledger, units: seq<PairId>) {
    forall p :: p in units ==> Sole(l, p).Some?
  }

  /** Burning one unit leaves the others as they were. */
  lemma OneUnitBurned(l: Ledger, p: PairId)
    requires BurnPairStep(l, p).Ok?
    ensures var next := BurnPairStep(l, p).value;
      && (forall q :: q != p ==> Sole(next, q) == Sole(l, q))
      && Sole(next, p).None?
      && next.pairs == l.pairs - Carrying(l, [p])
  {
    var next := BurnPairStep(l, p).value;
    forall q | q != p
      ensures Sole(next, q) == Sole(l, q)
    {
      assert Live(next, q) == Live(l, q);
      SoleSame(l, next, q);
    }
    assert Live(next, p) == {};
    assert Carrying(l, [p]) == {Sole(l, p).value};
  }

  lemma CarryingSplit(l: Ledger, next: Ledger, units: seq<PairId>)
    requires units != [] && next.pairs == l.pairs - Carrying(l, [units[0]])
    ensures next.pairs - Carrying(next, units[1..]) == l.pairs - Carrying(l, units)
  {
    assert units == [units[0]] + units[1..];
    assert Carrying(l, units) == Carrying(l, [units[0]]) + Carrying(next, units[1..]);
  }

  lemma SoleSplit(l: Ledger, next: Ledger, units: seq<PairId>)
    requires units != [] && Sole(l, units[0]).Some? && Sole(next, units[0]).None?
    requires forall q :: q != units[0] ==> Sole(next, q) == Sole(l, q)
    ensures Distinct(units) && AllSole(l, units) <==> Distinct(units[1..]) && AllSole(next, units[1..])
  {
    hide Sole;
    assert units == [units[0]] + units[1..];
    if Distinct(units[1..]) && AllSole(next, units[1..]) {
      assert units[0] !in units[1..];
    }
  }

  /** A list of units can be burned exactly when it repeats none and each has one UTxO. */
  lemma {:induction false} BurnPairsPhase(l: Ledger, pairs: seq<PairId>)
    requires Inv(l)
    ensures BurnPairs(l, pairs).Ok? <==> pairs == [] || (l.config.Some? && Distinct(pairs) && AllSole(l, pairs))
    ensures BurnPairs(l, pairs).Ok? ==>
      var m := BurnPairs(l, pairs).value;
      && Inv(m) && Kept(l, m) && m.hook == l.hook && m.receivers == l.receivers && m.references == l.references
      && m.pairs == l.pairs - Carrying(l, pairs)
    decreases |pairs|
  {
    if pairs == [] {
      assert l.pairs - {} == l.pairs;
    } else if BurnPairStep(l, pairs[0]).Ok? {
      var next := BurnPairStep(l, pairs[0]).value;
      assert Step(l, BurnPair(pairs[0])).Ok?;
      StepKeepsInv(l, BurnPair(pairs[0]));
      OneUnitBurned(l, pairs[0]);
      hide Sole, Inv, Carrying;
      BurnPairsPhase(next, pairs[1..]);
      CarryingSplit(l, next, pairs);
      SoleSplit(l, next, pairs);
    } else {
      assert pairs[0] in pairs;
    }
  }

  lemma WithdrawAllPhase(l: Ledger, c: ClientId)
    requires Inv(l)
    ensures WithdrawAll(l, c).Ok? ==>
      var m := WithdrawAll(l, c).value;
      && Inv(m) && Kept(l, m) && m.hook == l.hook && m.references == l.references && m.pairs == l.pairs
      && c in l.receivers
      && m.receivers == l.receivers[c := ReceiverOutput(l.receivers[c].state.(balance := 0))]
    ensures l.config.Some? && c in l.receivers ==> WithdrawAll(l, c).Ok?
  {
    if c in l.receivers && l.receivers[c].state.balance > 0 && WithdrawAll(l, c).Ok? {
      WithdrawKeepsInv(l, c, l.receivers[c].state.balance);
    }
  }

  /** One client can be dismantled exactly when nothing is accrued and each listed pair has one UTxO. */
  lemma ClientPhase(l: Ledger, p: ClientPlan)
    requires Inv(l)
    ensures TearDownClient(l, p).Ok?
       <==> && l.config.Some? && p.client in l.receivers && l.receivers[p.client].state.accrued == 0
            && Distinct(p.pairs) && AllSole(l, p.pairs)
    ensures TearDownClient(l, p).Ok? ==>
      var m := TearDownClient(l, p).value;
      && Inv(m) && Kept(l, m) && m.hook == l.hook && m.references == l.references
      && m.receivers == l.receivers - {p.client} && m.pairs == l.pairs - Carrying(l, p.pairs)
  {
    hide AllSole, Carrying, BurnPairs, NoDuplicates;
    WithdrawAllPhase(l, p.client);
    if WithdrawAll(l, p.client).Ok? {
      var drained := WithdrawAll(l, p.client).value;
      BurnPairsPhase(drained, p.pairs);
      SamePairs(l, drained, p.pairs);
      hide Inv;
      if BurnPairs(drained, p.pairs).Ok? && TearDownClient(l, p).Ok? {
        BurnReceiverKeepsInv(BurnPairs(drained, p.pairs).value, p.client);
        assert drained.receivers - {p.client} == l.receivers - {p.client};
      }
    }
  }

  lemma SamePairs(l: Ledger, m: Ledger, units: seq<PairId>)
    requires m.pairs == l.pairs
    ensures (AllSole(m, units) <==> AllSole(l, units)) && AllSole(l, [])
    ensures Carrying(m, units) == Carrying(l, units)
    ensures NoDuplicates(m) <==> NoDuplicates(l)
  {
    forall p
      ensures Sole(m, p) == Sole(l, p)
    {
      assert Live(m, p) == Live(l, p);
      SoleSame(l, m, p);
    }
    assert Units(m) == Units(l);
  }

  /** Without some of its units, a ledger has the others, each with the UTxOs it had. */
  lemma DuplicatesSplit(l: Ledger, m: Ledger, units: seq<PairId>)
    requires m.pairs == l.pairs - Carrying(l, units) && forall p :: p in units ==> p in Units(l)
    ensures forall p :: p in Units(m) <==> p in Units(l) && p !in units
    ensures NoDuplicates(l) <==> AllSole(l, units) && NoDuplicates(m)
  {
    forall p
      ensures p in Units(m) <==> p in Units(l) && p !in units
      ensures p !in units ==> Sole(m, p) == Sole(l, p)
    {
      UnitIsLive(l, p);
      UnitIsLive(m, p);
      if p in units {
        assert Live(m, p) == {};
      } else {
        assert Live(m, p) == Live(l, p);
        SoleSame(l, m, p);
      }
    }
  }

  /** Once one client is gone, the rest of the list still describes what is left. */
  lemma RestListed(l: Ledger, m: Ledger, clients: seq<ClientPlan>)
    requires clients != [] && ClientsListed(l, clients)
    requires m.receivers == l.receivers - {clients[0].client} && m.pairs == l.pairs - Carrying(l, clients[0].pairs)
    ensures ClientsListed(m, clients[1..])
    ensures Orphans(l) == {} ==> Orphans(m) == {}
    ensures NoDuplicates(l) <==> AllSole(l, clients[0].pairs) && NoDuplicates(m)
  {
    var c := clients[0].client;
    assert Enumerates(clients[0].pairs, PairsOf(l, c));
    DuplicatesSplit(l, m, clients[0].pairs);
    assert Ids(clients)[1..] == Ids(clients[1..]);
    TailEnumerates(Ids(clients), l.receivers.Keys);
    assert m.receivers.Keys == l.receivers.Keys - {c};
    forall k | 0 <= k < |clients| - 1
      ensures Enumerates(clients[1..][k].pairs, PairsOf(m, clients[1..][k].client))
    {
      assert Enumerates(clients[k + 1].pairs, PairsOf(l, clients[k + 1].client));
      assert Ids(clients)[0] != Ids(clients)[k + 1];
      assert PairsOf(m, clients[k + 1].client) == PairsOf(l, clients[k + 1].client);
    }
    forall p | p in Units(m) && Orphans(l) == {}
      ensures p.client in m.receivers
    {
      assert p !in Orphans(l);
      assert p !in PairsOf(l, c);
    }
  }

  /** The clients of a complete list can be dismantled one after the other exactly when no unit is duplicated. */
  lemma {:induction false} ClientsPhase(l: Ledger, clients: seq<ClientPlan>)
    requires Inv(l)
    ensures TearDownClients(l, clients).Ok? ==>
      var m := TearDownClients(l, clients).value;
      Inv(m) && Kept(l, m) && m.hook == l.hook && m.references == l.references
    ensures l.config.Some? && ClientsListed(l, clients) && Orphans(l) == {} && Owing(l) == {} ==>
      && (TearDownClients(l, clients).Ok? <==> NoDuplicates(l))
      && (TearDownClients(l, clients).Ok? ==>
            TearDownClients(l, clients).value.receivers == map[] && TearDownClients(l, clients).value.pairs == map[])
    decreases |clients|
  {
    if clients == [] {
      NothingListed(l);
    } else {
      ClientPhase(l, clients[0]);
      if ClientsListed(l, clients) {
        FirstListed(l, clients);
      }
      if TearDownClient(l, clients[0]).Ok? {
        var next := TearDownClient(l, clients[0]).value;
        if ClientsListed(l, clients) {
          RestListed(l, next, clients);
        }
        ClientsPhase(next, clients[1..]);
      }
    }
  }

  lemma FirstListed(l: Ledger, clients: seq<ClientPlan>)
    requires clients != [] && ClientsListed(l, clients)
    ensures clients[0].client in l.receivers && Distinct(clients[0].pairs)
    ensures Owing(l) == {} && Inv(l) ==> l.receivers[clients[0].client].state.accrued == 0
    ensures NoDuplicates(l) ==> AllSole(l, clients[0].pairs)
  {
    TailEnumerates(Ids(clients), l.receivers.Keys);
    assert Enumerates(clients[0].pairs, PairsOf(l, clients[0].client));
    assert clients[0].client in Owing(l) <==> l.receivers[clients[0].client].state.accrued > 0;
  }

  lemma NothingListed(l: Ledger)
    ensures ClientsListed(l, []) ==> l.receivers == map[]
    ensures ClientsListed(l, []) && Orphans(l) == {} ==> l.pairs == map[] && NoDuplicates(l)
  {
    if ClientsListed(l, []) {
      assert forall c :: c in l.receivers ==> c in Ids([]);
      assert forall i :: i in l.pairs ==> l.pairs[i].unit in Orphans(l);
    }
  }

  lemma SettlePhase(l: Ledger, clients: seq<ClientId>)
    requires Inv(l)
    ensures SettleAll(l, clients).Ok? ==>
      var m := SettleAll(l, clients).value;
      && Inv(m) && Kept(l, m) && m.pairs == l.pairs && m.references == l.references
      && m.hook.Some? == l.hook.Some? && m.receivers.Keys == l.receivers.Keys
      && (Enumerates(clients, Owing(l)) ==> Owing(m) == {})
    ensures l.config.Some? && l.hook.Some? && Enumerates(clients, Owing(l)) ==> SettleAll(l, clients).Ok?
  {
    if clients != [] && SettleStep(l, clients).Ok? {
      SettleKeepsInv(l, clients);
      SettleMovesTheSum(l, clients);
    }
    if Enumerates(clients, Owing(l)) {
      forall c | c in l.receivers && c !in clients
        ensures l.receivers[c].state.accrued == 0
      {
        assert c !in Owing(l);
      }
      forall k | 0 <= k < |clients|
        ensures clients[k] in l.receivers && l.receivers[clients[k]].state.accrued > 0
      {
        assert clients[k] in clients;
      }
    }
  }

  lemma HookPhase(l: Ledger)
    requires Inv(l)
    ensures TearDownHook(l).Ok? <==> l.config.Some? && l.hook.Some?
    ensures TearDownHook(l).Ok? ==>
      var m := TearDownHook(l).value;
      && Inv(m) && Kept(l, m) && m.receivers == l.receivers && m.pairs == l.pairs && m.references == l.references
      && m.hook.None?
  {
    if l.config.Some? && l.hook.Some? {
      var accrued := l.hook.value.state.accrued;
      var drained := if accrued > 0 then HookWithdrawStep(l, accrued).value else l;
      if accrued > 0 {
        HookStepsKeepInv(l, HookWithdraw(accrued));
      }
      HookStepsKeepInv(drained, BurnHook);
    }
  }

  lemma {:induction false} ReclaimPhase(l: Ledger, references: seq<RefId>)
    requires Inv(l)
    ensures ReclaimAll(l, references).Ok? ==>
      var m := ReclaimAll(l, references).value;
      Inv(m) && Kept(l, m) && m.hook == l.hook && m.receivers == l.receivers && m.pairs == l.pairs
    ensures l.config.Some? && Enumerates(references, l.references.Keys) ==>
      ReclaimAll(l, references).Ok? && ReclaimAll(l, references).value.references == map[]
    decreases |references|
  {
    if references == [] {
      if Enumerates(references, l.references.Keys) {
        assert forall r :: r in l.references ==> r in references;
      }
    } else {
      var r := references[0];
      if Enumerates(references, l.references.Keys) {
        TailEnumerates(references, l.references.Keys);
      }
      if ReclaimStep(l, r).Ok? {
        var next := ReclaimStep(l, r).value;
        ReferenceStepsKeepInv(l, ReclaimReference(r));
        assert next.references.Keys == l.references.Keys - {r};
        hide Inv, Step;
        ReclaimPhase(next, references[1..]);
      }
    }
  }

  // ----- the whole teardown

  predicate Dismantled(l: Ledger, m: Ledger) {
    && m.config.None? && m.hook.None? && m.receivers == map[] && m.pairs == map[] && m.references == map[]
    && m.deposits == l.deposits && m.books.paidIn == l.books.paidIn
  }

  lemma DismantlePhase(l: Ledger, plan: Plan)
    requires Inv(l) && ClientsListed(l, plan.clients) && Orphans(l) == {} && Owing(l) == {}
    requires Enumerates(plan.references, l.references.Keys)
    ensures Dismantle(l, plan).Ok? <==> l.config.Some? && l.hook.Some? && NoDuplicates(l)
    ensures Dismantle(l, plan).Ok? ==> Inv(Dismantle(l, plan).value) && Dismantled(l, Dismantle(l, plan).value)
  {
    ClientsPhase(l, plan.clients);
    hide NoDuplicates, TearDownClients, TearDownHook, ReclaimAll, ClientsListed, Inv;
    if TearDownClients(l, plan.clients).Ok? {
      var clientless := TearDownClients(l, plan.clients).value;
      HookPhase(clientless);
      if TearDownHook(clientless).Ok? {
        var hookless := TearDownHook(clientless).value;
        ReclaimPhase(hookless, plan.references);
        if ReclaimAll(hookless, plan.references).Ok? {
          ConfigStepsKeepInv(ReclaimAll(hookless, plan.references).value, BurnConfig);
        }
      }
    }
  }

  /** With the orphans burned, the rest of the plan still lists what is left. */
  lemma PrunedListing(l: Ledger, m: Ledger, plan: Plan)
    requires Covers(l, plan) && m.receivers == l.receivers
    requires m.pairs == l.pairs - Carrying(l, plan.orphans)
    ensures Orphans(m) == {} && ClientsListed(m, plan.clients) && Enumerates(plan.settle, Owing(m))
    ensures NoDuplicates(l) <==> AllSole(l, plan.orphans) && NoDuplicates(m)
  {
    assert forall p :: p in plan.orphans <==> p in Orphans(l);
    DuplicatesSplit(l, m, plan.orphans);
    forall c | c in l.receivers
      ensures PairsOf(m, c) == PairsOf(l, c)
    {
    }
    assert forall k :: 0 <= k < |plan.clients| ==> Ids(plan.clients)[k] in l.receivers.Keys;
    assert Owing(m) == Owing(l);
  }

  lemma SettledListing(l: Ledger, m: Ledger, plan: Plan)
    requires ClientsListed(l, plan.clients) && Orphans(l) == {}
    requires m.pairs == l.pairs && m.receivers.Keys == l.receivers.Keys
    ensures ClientsListed(m, plan.clients) && Orphans(m) == {} && (NoDuplicates(m) <==> NoDuplicates(l))
  {
    SamePairs(l, m, []);
    assert Units(m) == Units(l);
    assert forall c :: PairsOf(m, c) == PairsOf(l, c);
    assert Orphans(m) == Orphans(l);
  }

  lemma OrphansPhase(l: Ledger, plan: Plan)
    requires Inv(l) && Covers(l, plan)
    ensures BurnPairs(l, plan.orphans).Ok? <==> plan.orphans == [] || (l.config.Some? && AllSole(l, plan.orphans))
    ensures BurnPairs(l, plan.orphans).Ok? ==>
      var m := BurnPairs(l, plan.orphans).value;
      && Inv(m) && Kept(l, m) && m.hook == l.hook && m.references == l.references
      && Orphans(m) == {} && ClientsListed(m, plan.clients) && Enumerates(plan.settle, Owing(m))
      && (NoDuplicates(m) <==> NoDuplicates(l))
    ensures NoDuplicates(l) ==> AllSole(l, plan.orphans)
  {
    hide Inv, ClientsListed;
    BurnPairsPhase(l, plan.orphans);
    assert forall p :: p in plan.orphans ==> p in Orphans(l);
    if BurnPairs(l, plan.orphans).Ok? {
      PrunedListing(l, BurnPairs(l, plan.orphans).value, plan);
    }
  }

  lemma TearDownDismantles(l: Ledger, plan: Plan)
    requires Inv(l) && Covers(l, plan)
    ensures TearDown(l, plan).Ok? <==> l.config.Some? && l.hook.Some? && NoDuplicates(l)
    ensures TearDown(l, plan).Ok? ==> Inv(TearDown(l, plan).value) && Dismantled(l, TearDown(l, plan).value)
  {
    assert Enumerates(plan.references, l.references.Keys);
    OrphansPhase(l, plan);
    hide NoDuplicates, AllSole, Inv, Dismantle, ClientsListed, BurnPairs, Covers, Enumerates, Orphans, Owing;
    if BurnPairs(l, plan.orphans).Ok? {
      var pruned := BurnPairs(l, plan.orphans).value;
      SettlePhase(pruned, plan.settle);
      if SettleAll(pruned, plan.settle).Ok? {
        var settled := SettleAll(pruned, plan.settle).value;
        SettledListing(pruned, settled, plan);
        DismantlePhase(settled, plan);
      }
    }
  }

  /**
    Given a list of everything there is, every step is enabled in turn exactly when the Config and the hook are live
    and no unit has two UTxOs. Nothing but pending deposits stays locked, everything else has been paid out, and all
    fees are collected.
   */
  lemma TearDownRecoversEverything(l: Ledger, plan: Plan)
    requires Reachable(l) && Covers(l, plan)
    ensures TearDown(l, plan).Ok? <==> l.config.Some? && l.hook.Some? && NoDuplicates(l)
    ensures TearDown(l, plan).Ok? ==>
      var m := TearDown(l, plan).value;
      && Dismantled(l, m)
      && Locked(m) == DepositsLocked(l)
      && m.books.paidOut - l.books.paidOut == Locked(l) - DepositsLocked(l)
      && m.books.fees == m.books.retired
  {
    ReachableInv(l);
    TearDownDismantles(l, plan);
  }

  // ----- a plan always exists

  lemma {:induction false} CanEnumerate<T(!new)>(all: set<T>) returns (s: seq<T>)
    ensures Enumerates(s, all)
    decreases |all|
  {
    if all == {} {
      s := [];
    } else {
      var x :| x in all;
      var rest := CanEnumerate(all - {x});
      s := [x] + rest;
    }
  }

  lemma {:induction false} CanListPairs(l: Ledger, ids: seq<ClientId>) returns (clients: seq<ClientPlan>)
    ensures |clients| == |ids| && Ids(clients) == ids
    ensures forall k :: 0 <= k < |clients| ==> Enumerates(clients[k].pairs, PairsOf(l, clients[k].client))
  {
    if ids == [] {
      clients := [];
    } else {
      var pairs := CanEnumerate(PairsOf(l, ids[0]));
      var rest := CanListPairs(l, ids[1..]);
      clients := [ClientPlan(ids[0], pairs)] + rest;
    }
  }

  lemma CanCover(l: Ledger) returns (plan: Plan)
    ensures Covers(l, plan)
  {
    var orphans := CanEnumerate(Orphans(l));
    var settle := CanEnumerate(Owing(l));
    var references := CanEnumerate(l.references.Keys);
    var ids := CanEnumerate(l.receivers.Keys);
    var clients := CanListPairs(l, ids);
    plan := Plan(orphans, settle, clients, references);
  }

  /** Repair burns first, then the teardown of what they leave. */
  function RepairAndTearDown(l: Ledger, burns: seq<nat>, plan: Plan): Result<Ledger, Rejection> {
    var repaired :- Run(l, Burns(burns));
    TearDown(repaired, plan)
  }

  /**
    From every reachable ledger whose Config and hook are live, duplicated pairs or not, some repair and some teardown
    run to the end, and together they pay out everything but pending deposits.
   */
  lemma EveryLedgerCanBeTornDown(l: Ledger)
    requires Reachable(l) && l.config.Some? && l.hook.Some?
    ensures exists burns, plan ::
      && RepairAndTearDown(l, burns, plan).Ok?
      && var m := RepairAndTearDown(l, burns, plan).value;
         && Dismantled(l, m) && Locked(m) == DepositsLocked(l)
         && m.books.paidOut - l.books.paidOut == Locked(l) - DepositsLocked(l)
  {
    ReachableInv(l);
    var burns := CanRepair(l);
    RunKeepsInv(l, Burns(burns));
    var repaired := Run(l, Burns(burns)).value;
    var plan := CanCover(repaired);
    TearDownDismantles(repaired, plan);
    hide Run, TearDown, NoDuplicates, Covers;
    assert RepairAndTearDown(l, burns, plan) == TearDown(repaired, plan);
  }

  // ----- why the order matters

  lemma FrozenStep(l: Ledger, a: Action)
    requires l.config.None? && Step(l, a).Ok?
    ensures var m := Step(l, a).value;
      m.config.None? && m.books.paidOut == l.books.paidOut && m.books.paidIn >= l.books.paidIn
  {
  }

  lemma {:induction false} FrozenRun(l: Ledger, actions: seq<Action>)
    requires l.config.None? && Run(l, actions).Ok?
    ensures var m := Run(l, actions).value;
      m.config.None? && m.books.paidOut == l.books.paidOut && m.books.paidIn >= l.books.paidIn
    decreases |actions|
  {
    if actions != [] {
      FrozenStep(l, actions[0]);
      FrozenRun(Step(l, actions[0]).value, actions[1..]);
    }
  }

  /** A burned Config never comes back, and from then on no lovelace leaves the scripts. */
  lemma ConfigBurnFreezes(l: Ledger, actions: seq<Action>)
    requires Reachable(l) && l.config.None? && Run(l, actions).Ok?
    ensures var m := Run(l, actions).value;
      m.config.None? && m.books.paidOut == l.books.paidOut && Locked(m) >= Locked(l)
  {
    ReachableInv(l);
    RunKeepsInv(l, actions);
    FrozenRun(l, actions);
  }

  lemma HooklessStep(l: Ledger, a: Action, c: ClientId)
    requires l.hook.None? && c in l.receivers && l.receivers[c].state.accrued > 0 && Step(l, a).Ok?
    ensures var m := Step(l, a).value;
      m.hook.None? && c in m.receivers && m.receivers[c].state.accrued == l.receivers[c].state.accrued
  {
  }

  /** With the hook gone, fees still in a Receiver keep it alive for ever: it can be neither settled nor burned. */
  lemma {:induction false} HookBurnStrandsFees(l: Ledger, actions: seq<Action>, c: ClientId)
    requires l.hook.None? && c in l.receivers && l.receivers[c].state.accrued > 0 && Run(l, actions).Ok?
    ensures var m := Run(l, actions).value;
      m.hook.None? && c in m.receivers && m.receivers[c].state.accrued == l.receivers[c].state.accrued
    decreases |actions|
  {
    if actions != [] {
      HooklessStep(l, actions[0], c);
      HookBurnStrandsFees(Step(l, actions[0]).value, actions[1..], c);
    }
  }

  lemma StrandedStep(l: Ledger, a: Action, c: ClientId)
    requires c !in l.receivers && c in l.bootstrapped && Step(l, a).Ok?
    ensures c !in Step(l, a).value.receivers && c in Step(l, a).value.bootstrapped
    ensures multiset(DepositsOf(l, c)) <= multiset(DepositsOf(Step(l, a).value, c))
  {
    if a.Settle? {
      DrainedAt(l.receivers, a.clients);
    }
  }

  lemma {:induction false} StrandedRun(l: Ledger, actions: seq<Action>, c: ClientId)
    requires c !in l.receivers && c in l.bootstrapped && Run(l, actions).Ok?
    ensures c !in Run(l, actions).value.receivers
    ensures multiset(DepositsOf(l, c)) <= multiset(DepositsOf(Run(l, actions).value, c))
    decreases |actions|
  {
    if actions != [] {
      StrandedStep(l, actions[0], c);
      StrandedRun(Step(l, actions[0]).value, actions[1..], c);
    }
  }

  /** Deposits still pending when their Receiver is burned stay for ever: no run brings that Receiver back. */
  lemma ReceiverBurnStrandsDeposits(l: Ledger, c: ClientId, actions: seq<Action>)
    requires Reachable(l) && BurnReceiverStep(l, c).Ok? && Run(BurnReceiverStep(l, c).value, actions).Ok?
    ensures var m := Run(BurnReceiverStep(l, c).value, actions).value;
      c !in m.receivers && multiset(DepositsOf(l, c)) <= multiset(DepositsOf(m, c))
  {
    ReachableInv(l);
    StrandedRun(BurnReceiverStep(l, c).value, actions, c);
  }

  // ----- what a teardown can leave behind

  lemma {:induction false} NoDepositsExactlyWhenZero(deposits: map<ClientId, seq<Deposit>>)
    requires forall c, d :: c in deposits && d in deposits[c] ==> 0 < d.lovelace
    ensures 0 <= SumMap(deposits, DepositLovelace())
    ensures SumMap(deposits, DepositLovelace()) == 0 <==> forall c :: c in deposits ==> deposits[c] == []
    decreases |deposits|
  {
    if deposits != map[] {
      var c :| c in deposits;
      SumMapRemove(deposits, c, DepositLovelace());
      NoDepositsExactlyWhenZero(deposits - {c});
      if deposits[c] != [] {
        assert 0 < deposits[c][0].lovelace;
        PositiveTotal(deposits[c][1..]);
      }
      assert forall k :: k in deposits ==> k == c || k in deposits - {c};
    }
  }

  /** A completed teardown leaves nothing locked exactly when no deposit was pending. */
  lemma NothingIsLeftExactlyWhenSwept(l: Ledger, plan: Plan)
    requires Reachable(l) && Covers(l, plan) && TearDown(l, plan).Ok?
    ensures Locked(TearDown(l, plan).value) == 0 <==> forall c :: c in l.deposits ==> l.deposits[c] == []
  {
    TearDownRecoversEverything(l, plan);
    ReachableInv(l);
    NoDepositsExactlyWhenZero(l.deposits);
  }

  /** One lovelace sent to a deposit address and never merged is still there after the teardown. */
  lemma PendingDepositSurvives()
    ensures exists l, plan ::
      Reachable(l) && Covers(l, plan) && TearDown(l, plan).Ok? && 0 < Locked(TearDown(l, plan).value)
  {
    var c := ClientId("c");
    var fund := FundDeposit(c, Deposit(OutRef("", 0), 1, [], false));
    FreeDeploymentIsReachable();
    ReachableStep(FreeDeployment(), fund);
    var l := Step(FreeDeployment(), fund).value;
    var plan := Plan([], [], [], []);
    assert Covers(l, plan);
    TearDownRecoversEverything(l, plan);
    NothingIsLeftExactlyWhenSwept(l, plan);
    NoDepositsExactlyWhenZero(l.deposits);
    assert c in l.deposits && l.deposits[c] != [];
  }
}

/**
  Duplicated pairs in the ledger: which units have one UTxO, and how the repair command (transactions/pair-dedup.ts)
  gets from any ledger back to one UTxO per unit, burn by burn.
 */
module PairRepair {
  import opened Prelude
  import opened FeeLedger
  import opened LedgerInvariant
  import D = PairDedup

  function Units(l: Ledger): set<PairId> {
    set i | i in l.pairs :: l.pairs[i].unit
  }

  /** Every live unit resolves to one UTxO. */
  ghost predicate NoDuplicates(l: Ledger) {
    forall p :: p in Units(l) ==> Sole(l, p).Some?
  }

  lemma UnitIsLive(l: Ledger, p: PairId)
    ensures p in Units(l) <==> Live(l, p) != {}
  {
    if p in Units(l) {
      var i :| i in l.pairs && l.pairs[i].unit == p;
      assert i in Live(l, p);
    }
    if Live(l, p) != {} {
      var i :| i in Live(l, p);
      assert l.pairs[i].unit in Units(l);
    }
  }

  lemma SoleIs(l: Ledger, i: nat)
    requires i in l.pairs && forall j :: j in l.pairs && l.pairs[j].unit == l.pairs[i].unit ==> j == i
    ensures Sole(l, l.pairs[i].unit) == Some(i)
  {
    assert Live(l, l.pairs[i].unit) == {i};
  }

  lemma SoleSame(l: Ledger, m: Ledger, p: PairId)
    requires Live(l, p) == Live(m, p)
    ensures Sole(l, p) == Sole(m, p)
  {
    if Sole(l, p).Some? {
      assert Sole(l, p).value in Live(l, p);
      assert Sole(m, p).value in Live(l, p);
    }
  }

  lemma TwoAreNotSole(l: Ledger, i: nat, j: nat)
    requires i in l.pairs && j in l.pairs && i != j && l.pairs[i].unit == l.pairs[j].unit
    ensures Sole(l, l.pairs[i].unit).None?
  {
  }

  // ----- a sequence of repair burns

  function Burns(numbers: seq<nat>): (actions: seq<Action>)
    ensures |actions| == |numbers|
  {
    seq(|numbers|, k requires 0 <= k < |numbers| => BurnDuplicate(numbers[k]))
  }

  function Members(numbers: seq<nat>): set<nat> {
    set i | i in numbers
  }

  /** A repair changes nothing but the pairs it burns and the lovelace it pays out. */
  ghost predicate OnlyBurned(l: Ledger, m: Ledger, numbers: set<nat>) {
    && m == l.(pairs := m.pairs, books := l.books.(paidOut := m.books.paidOut))
    && m.pairs == l.pairs - numbers
  }

  /** A UTxO of the same unit that is at least as recent and is not to be burned. */
  ghost predicate KeepsRival(l: Ledger, i: nat, numbers: set<nat>)
    requires i in l.pairs
  {
    exists j :: j in l.pairs && j !in numbers && l.pairs[j].unit == l.pairs[i].unit
                && l.pairs[j].quote.nonce >= l.pairs[i].quote.nonce
  }

  lemma NoBurns(l: Ledger)
    ensures Run(l, Burns([])) == Ok(l) && OnlyBurned(l, l, Members([]))
  {
    assert l.pairs - {} == l.pairs;
  }

  lemma OneMoreBurn(l: Ledger, i: nat, rest: seq<nat>)
    requires BurnDuplicateStep(l, i).Ok? && Run(WithoutPair(l, i), Burns(rest)).Ok?
    ensures Run(l, Burns([i] + rest)) == Run(WithoutPair(l, i), Burns(rest))
    ensures WithoutPair(l, i).pairs - Members(rest) == l.pairs - Members([i] + rest)
  {
    assert Burns([i] + rest)[0] == BurnDuplicate(i);
    assert Burns([i] + rest)[1..] == Burns(rest);
  }

  lemma RivalsRemain(l: Ledger, numbers: seq<nat>)
    requires numbers != [] && Distinct(numbers)
    requires forall i :: i in numbers ==> i in l.pairs && KeepsRival(l, i, Members(numbers))
    ensures HasRival(l, numbers[0])
    ensures var next := WithoutPair(l, numbers[0]);
      forall i :: i in numbers[1..] ==> i in next.pairs && KeepsRival(next, i, Members(numbers[1..]))
  {
    var i, rest := numbers[0], numbers[1..];
    var next := WithoutPair(l, i);
    assert numbers == [i] + rest;
    assert i in numbers && KeepsRival(l, i, Members(numbers));
    forall k | k in rest
      ensures k in next.pairs && KeepsRival(next, k, Members(rest))
    {
      assert k in numbers && KeepsRival(l, k, Members(numbers));
      var j :| j in l.pairs && j !in Members(numbers) && l.pairs[j].unit == l.pairs[k].unit
               && l.pairs[j].quote.nonce >= l.pairs[k].quote.nonce;
      assert j !in Members(rest);
    }
  }

  /** Burns that leave every burned UTxO a rival are all accepted, in any order. */
  lemma {:induction false} BurnsRun(l: Ledger, numbers: seq<nat>)
    requires l.config.Some? && Distinct(numbers)
    requires forall i :: i in numbers ==> i in l.pairs && KeepsRival(l, i, Members(numbers))
    ensures Run(l, Burns(numbers)).Ok?
    ensures OnlyBurned(l, Run(l, Burns(numbers)).value, Members(numbers))
    decreases |numbers|
  {
    hide Run, Burns, KeepsRival, HasRival;
    if numbers == [] {
      NoBurns(l);
    } else {
      assert numbers == [numbers[0]] + numbers[1..];
      assert numbers[0] in numbers;
      RivalsRemain(l, numbers);
      BurnsRun(WithoutPair(l, numbers[0]), numbers[1..]);
      OneMoreBurn(l, numbers[0], numbers[1..]);
    }
  }

  lemma NothingStale(l: Ledger)
    requires forall i :: i in l.pairs ==> !HasRival(l, i)
    ensures NoDuplicates(l)
  {
    forall p | p in Units(l)
      ensures Sole(l, p).Some?
    {
      var i :| i in l.pairs && l.pairs[i].unit == p;
      forall j | j in l.pairs && l.pairs[j].unit == p
        ensures j == i
      {
        assert !HasRival(l, i) && !HasRival(l, j);
      }
      SoleIs(l, i);
    }
  }

  /** Some sequence of repair burns ends with one UTxO for every unit. */
  lemma {:induction false} CanRepair(l: Ledger) returns (numbers: seq<nat>)
    requires l.config.Some?
    ensures Run(l, Burns(numbers)).Ok?
    ensures OnlyBurned(l, Run(l, Burns(numbers)).value, Members(numbers))
    ensures NoDuplicates(Run(l, Burns(numbers)).value)
    decreases |l.pairs|
  {
    hide Run, Burns, NoDuplicates;
    if i :| i in l.pairs && HasRival(l, i) {
      var rest := CanRepair(WithoutPair(l, i));
      numbers := [i] + rest;
      OneMoreBurn(l, i, rest);
    } else {
      numbers := [];
      NoBurns(l);
      NothingStale(l);
    }
  }

  // ----- the repair command, on what it sees of the ledger

  function NumbersOf(l: Ledger, c: ClientId): set<nat> {
    set i | i in l.pairs && l.pairs[i].unit.client == c
  }

  function Seen(l: Ledger, i: nat): D.PairUtxo
    requires i in l.pairs
  {
    D.PairUtxo(OutRef("", i), [l.pairs[i].unit.pairUnit], Some(l.pairs[i].quote.nonce))
  }

  /** The pair address of one client, in the provider's order. */
  function Listing(l: Ledger, listed: seq<nat>): (all: seq<D.PairUtxo>)
    requires forall i :: i in listed ==> i in l.pairs
    ensures |all| == |listed| && forall k :: 0 <= k < |listed| ==> all[k] == Seen(l, listed[k])
  {
    seq(|listed|, k requires 0 <= k < |listed| => Seen(l, listed[k]))
  }

  ghost predicate ListsAddress(l: Ledger, c: ClientId, policy: string, listed: seq<nat>) {
    && Distinct(listed) && (forall i :: i in listed <==> i in NumbersOf(l, c))
    && forall i :: i in listed ==> policy <= l.pairs[i].unit.pairUnit
  }

  /** The burns that the command chooses for that address. */
  ghost predicate Chosen(l: Ledger, listed: seq<nat>, policy: string, numbers: seq<nat>)
    requires forall i :: i in listed ==> i in l.pairs
  {
    Distinct(numbers) && forall i :: i in numbers <==> OutRef("", i) in D.StaleRefs(Listing(l, listed), policy)
  }

  lemma ListingFacts(l: Ledger, c: ClientId, policy: string, listed: seq<nat>)
    requires ListsAddress(l, c, policy, listed)
    ensures D.DistinctRefs(Listing(l, listed))
    ensures forall u :: u in Listing(l, listed) <==>
      exists i :: i in listed && u == Seen(l, i)
    ensures forall i :: i in listed ==> D.PairUnit(Seen(l, i).units, policy) == Some(l.pairs[i].unit.pairUnit)
  {
    forall i | i in listed
      ensures Seen(l, i) in Listing(l, listed)
    {
      var k :| 0 <= k < |listed| && listed[k] == i;
      assert Listing(l, listed)[k] == Seen(l, i);
    }
  }

  /** What the command keeps, seen from the ledger: every UTxO of the client has a rival that is not burned. */
  lemma SurvivorOf(l: Ledger, c: ClientId, policy: string, listed: seq<nat>, numbers: seq<nat>, i: nat) returns (j: nat)
    requires ListsAddress(l, c, policy, listed) && Chosen(l, listed, policy, numbers) && i in listed
    ensures j in listed && j !in numbers && l.pairs[j].unit == l.pairs[i].unit
    ensures l.pairs[j].quote.nonce >= l.pairs[i].quote.nonce
  {
    var all := Listing(l, listed);
    var stale := D.StaleRefs(all, policy);
    ListingFacts(l, c, policy, listed);
    D.DedupRestoresSingletons(all, policy);
    D.WithoutMembers(all, stale);
    assert Seen(l, i) in all;
    var v :| v in D.Without(all, stale) && D.SameUnit(Seen(l, i), v, policy) && D.Nonce(Seen(l, i)) <= D.Nonce(v);
    j :| j in listed && v == Seen(l, j);
    assert v.outRef == OutRef("", j);
  }

  lemma SurvivorIsOnly(l: Ledger, c: ClientId, policy: string, listed: seq<nat>, numbers: seq<nat>, i: nat, j: nat)
    requires ListsAddress(l, c, policy, listed) && Chosen(l, listed, policy, numbers)
    requires i in listed && j in listed && i !in numbers && j !in numbers && l.pairs[i].unit == l.pairs[j].unit
    ensures i == j
  {
    var all := Listing(l, listed);
    var stale := D.StaleRefs(all, policy);
    ListingFacts(l, c, policy, listed);
    D.DedupRestoresSingletons(all, policy);
    D.WithoutMembers(all, stale);
    assert Seen(l, i) in all && Seen(l, j) in all;
    assert D.SameUnit(Seen(l, i), Seen(l, j), policy);
  }

  lemma ChosenAreListed(l: Ledger, c: ClientId, policy: string, listed: seq<nat>, numbers: seq<nat>)
    requires ListsAddress(l, c, policy, listed) && Chosen(l, listed, policy, numbers)
    ensures forall i :: i in numbers ==> i in listed
  {
    ListingFacts(l, c, policy, listed);
    forall i | i in numbers
      ensures i in listed
    {
      var all := Listing(l, listed);
      var u :| u in all && D.Stale(all, policy, u) && u.outRef == OutRef("", i);
      var k :| k in listed && u == Seen(l, k);
    }
  }

  /**
    The command's own choice, burned in any order, is accepted burn by burn. Every unit of the client is then carried by
    one UTxO, which has the highest nonce the unit had, and the pairs of other clients are as they were.
   */
  lemma RepairRestoresSingletons(l: Ledger, c: ClientId, policy: string, listed: seq<nat>, numbers: seq<nat>)
    requires l.config.Some? && ListsAddress(l, c, policy, listed) && Chosen(l, listed, policy, numbers)
    ensures Run(l, Burns(numbers)).Ok?
    ensures var m := Run(l, Burns(numbers)).value;
      && OnlyBurned(l, m, Members(numbers))
      && (forall i :: i in NumbersOf(l, c) ==>
            && Sole(m, l.pairs[i].unit).Some?
            && m.pairs[Sole(m, l.pairs[i].unit).value].quote.nonce >= l.pairs[i].quote.nonce)
      && (forall p: PairId :: p.client != c ==> Live(m, p) == Live(l, p))
  {
    ChosenAreListed(l, c, policy, listed, numbers);
    forall i | i in numbers
      ensures i in l.pairs && KeepsRival(l, i, Members(numbers))
    {
      var j := SurvivorOf(l, c, policy, listed, numbers, i);
    }
    BurnsRun(l, numbers);
    var m := Run(l, Burns(numbers)).value;
    forall i | i in NumbersOf(l, c)
      ensures Sole(m, l.pairs[i].unit).Some?
      ensures m.pairs[Sole(m, l.pairs[i].unit).value].quote.nonce >= l.pairs[i].quote.nonce
    {
      var j := SurvivorOf(l, c, policy, listed, numbers, i);
      forall k | k in m.pairs && m.pairs[k].unit == m.pairs[j].unit
        ensures k == j
      {
        SurvivorIsOnly(l, c, policy, listed, numbers, k, j);
      }
      SoleIs(m, j);
    }
  }
}

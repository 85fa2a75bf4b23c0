/** Repairing duplicated Pair NFTs: keep the highest nonce of every unit, burn the rest (transactions/pair-dedup.ts). */
module PairDedup {
  import opened Prelude
  import opened Folds

  /** A UTxO at the pair validator address: its native units in listing order, and its nonce if the datum decodes. */
  datatype PairUtxo = PairUtxo(outRef: OutRef, units: seq<string>, nonce: Option<int>)

  /** How one burn transaction ended. A timeout after submission may leave the UTxO spent. */
  datatype BurnOutcome = Confirmed | FailedUnspent | FailedSpent

  datatype Kept = Kept(kept: OutRef, burned: seq<OutRef>)

  datatype Report = Report(scanned: nat, duplicateUnits: nat, burned: nat, details: map<string, Kept>)

  /** The UTxO set at the pair validator address. */
  class PairAddress {
    var utxos: seq<PairUtxo>

    constructor (utxos: seq<PairUtxo>)
      ensures this.utxos == utxos
    {
      this.utxos := utxos;
    }

    method Spend(outRef: OutRef)
      modifies this
      ensures utxos == Without(old(utxos), {outRef})
    {
      utxos := Without(utxos, {outRef});
    }
  }

  /** The first of a UTxO's units that belongs to the pair policy. */
  function PairUnit(units: seq<string>, policy: string): Option<string> {
    if units == [] then None
    else if policy <= units[0] then Some(units[0])
    else PairUnit(units[1..], policy)
  }

  function Nonce(u: PairUtxo): int {
    if u.nonce.Some? then u.nonce.value else 0
  }

  function Group(s: seq<PairUtxo>, policy: string, unit: string): seq<PairUtxo> {
    if s == [] then []
    else if PairUnit(s[0].units, policy) == Some(unit) then [s[0]] + Group(s[1..], policy, unit)
    else Group(s[1..], policy, unit)
  }

  function PairUtxos(s: seq<PairUtxo>, policy: string): seq<PairUtxo> {
    if s == [] then []
    else if PairUnit(s[0].units, policy).Some? then [s[0]] + PairUtxos(s[1..], policy)
    else PairUtxos(s[1..], policy)
  }

  function Without(s: seq<PairUtxo>, dead: set<OutRef>): seq<PairUtxo> {
    if s == [] then []
    else if s[0].outRef in dead then Without(s[1..], dead)
    else [s[0]] + Without(s[1..], dead)
  }

  /** The library's stable sort, highest nonce first. */
  function InsertByNonce(u: PairUtxo, sorted: seq<PairUtxo>): seq<PairUtxo> {
    if sorted == [] || Nonce(u) >= Nonce(sorted[0]) then [u] + sorted
    else [sorted[0]] + InsertByNonce(u, sorted[1..])
  }

  function SortByNonce(s: seq<PairUtxo>): seq<PairUtxo> {
    if s == [] then [] else InsertByNonce(s[0], SortByNonce(s[1..]))
  }

  lemma {:induction false} SortByNonceFacts(s: seq<PairUtxo>)
    ensures multiset(SortByNonce(s)) == multiset(s) && |SortByNonce(s)| == |s|
    ensures forall u :: u in s ==> Nonce(u) <= Nonce(SortByNonce(s)[0])
  {
    hide InsertByNonce, Nonce;
    if s != [] {
      SortByNonceFacts(s[1..]);
      InsertByNonceFacts(s[0], SortByNonce(s[1..]));
      HeadAndTail(s);
      InsertedIsHighest(s[0], s[1..], SortByNonce(s[1..]));
    }
  }

  lemma HeadAndTail(s: seq<PairUtxo>)
    requires s != []
    ensures multiset(s) == multiset(s[1..]) + multiset{s[0]}
    ensures forall u :: u in s ==> u == s[0] || u in s[1..]
  {
    assert s == [s[0]] + s[1..];
  }

  lemma InsertedIsHighest(u: PairUtxo, s: seq<PairUtxo>, sorted: seq<PairUtxo>)
    requires |sorted| == |s| && forall v :: v in s ==> Nonce(v) <= Nonce(sorted[0])
    ensures InsertByNonce(u, sorted) != [] && Nonce(u) <= Nonce(InsertByNonce(u, sorted)[0])
    ensures forall v :: v in s ==> Nonce(v) <= Nonce(InsertByNonce(u, sorted)[0])
  {
    InsertByNonceFacts(u, sorted);
  }

  lemma {:induction false} InsertByNonceFacts(u: PairUtxo, s: seq<PairUtxo>)
    ensures multiset(InsertByNonce(u, s)) == multiset(s) + multiset{u} && |InsertByNonce(u, s)| == |s| + 1
    ensures InsertByNonce(u, s)[0] == if s == [] || Nonce(u) >= Nonce(s[0]) then u else s[0]
  {
    if s != [] && Nonce(u) < Nonce(s[0]) {
      InsertByNonceFacts(u, s[1..]);
      assert s == [s[0]] + s[1..];
    }
  }

  /** The survivor of a group of UTxOs that carry one unit. */
  function Keeper(group: seq<PairUtxo>): PairUtxo
    requires group != []
  {
    SortByNonceFacts(group);
    SortByNonce(group)[0]
  }

  predicate Stale(all: seq<PairUtxo>, policy: string, u: PairUtxo) {
    var unit := PairUnit(u.units, policy);
    unit.Some? && Group(all, policy, unit.value) != [] && u != Keeper(Group(all, policy, unit.value))
  }

  function StaleRefs(all: seq<PairUtxo>, policy: string): set<OutRef> {
    set u | u in all && Stale(all, policy, u) :: u.outRef
  }

  ghost predicate DistinctRefs(s: seq<PairUtxo>) {
    forall i, j :: 0 <= i < j < |s| ==> s[i].outRef != s[j].outRef
  }

  // ----- facts about the filters

  lemma {:induction false} GroupMembers(s: seq<PairUtxo>, policy: string, unit: string)
    ensures forall u :: u in Group(s, policy, unit) <==> u in s && PairUnit(u.units, policy) == Some(unit)
    ensures DistinctRefs(s) ==> DistinctRefs(Group(s, policy, unit))
  {
    if s != [] {
      GroupMembers(s[1..], policy, unit);
      assert s == [s[0]] + s[1..];
      if DistinctRefs(s) {
        forall u | u in Group(s[1..], policy, unit)
          ensures u.outRef != s[0].outRef
        {
          var k :| 0 <= k < |s[1..]| && s[1..][k] == u;
          assert s[k + 1] == u;
        }
      }
    }
  }

  lemma {:induction false} WithoutMembers(s: seq<PairUtxo>, dead: set<OutRef>)
    ensures forall u :: u in Without(s, dead) <==> u in s && u.outRef !in dead
  {
    if s != [] {
      WithoutMembers(s[1..], dead);
      assert s == [s[0]] + s[1..];
    }
  }

  lemma {:induction false} WithoutTwice(s: seq<PairUtxo>, dead: set<OutRef>, more: set<OutRef>)
    ensures Without(Without(s, dead), more) == Without(s, dead + more)
  {
    if s != [] {
      WithoutTwice(s[1..], dead, more);
    }
  }

  lemma {:induction false} WithoutNone(s: seq<PairUtxo>)
    ensures Without(s, {}) == s
  {
    if s != [] {
      WithoutNone(s[1..]);
      assert s == [s[0]] + s[1..];
    }
  }

  lemma {:induction false} GroupExtend(s: seq<PairUtxo>, u: PairUtxo, policy: string, unit: string)
    ensures Group(s + [u], policy, unit)
         == Group(s, policy, unit) + if PairUnit(u.units, policy) == Some(unit) then [u] else []
  {
    if s == [] {
      assert s + [u] == [u];
    } else {
      assert (s + [u])[1..] == s[1..] + [u];
      GroupExtend(s[1..], u, policy, unit);
    }
  }

  // ----- which unit counts, and which UTxO survives, spelled out

  /** `x` is the first of the units that starts with the policy id. */
  ghost predicate FirstMatching(units: seq<string>, policy: string, x: string) {
    exists k :: 0 <= k < |units| && units[k] == x && policy <= x && forall j :: 0 <= j < k ==> !(policy <= units[j])
  }

  ghost predicate Foreign(units: seq<string>, policy: string) {
    forall k :: 0 <= k < |units| ==> !(policy <= units[k])
  }

  lemma {:induction false} PairUnitExactly(units: seq<string>, policy: string)
    ensures PairUnit(units, policy).None? <==> Foreign(units, policy)
    ensures forall x :: PairUnit(units, policy) == Some(x) <==> FirstMatching(units, policy, x)
  {
    if units != [] {
      var rest := units[1..];
      PairUnitExactly(rest, policy);
      assert forall k :: 0 <= k < |rest| ==> rest[k] == units[k + 1];
      if policy <= units[0] {
        assert FirstMatching(units, policy, units[0]);
      } else {
        forall x
          ensures FirstMatching(units, policy, x) <==> FirstMatching(rest, policy, x)
        {
          OneUnitEarlier(units, policy, x);
        }
      }
    }
  }

  lemma OneUnitEarlier(units: seq<string>, policy: string, x: string)
    requires units != [] && !(policy <= units[0])
    ensures FirstMatching(units, policy, x) <==> FirstMatching(units[1..], policy, x)
  {
    var rest := units[1..];
    if k :| 0 <= k < |units| && units[k] == x && policy <= x && forall j :: 0 <= j < k ==> !(policy <= units[j]) {
      assert rest[k - 1] == x && forall j :: 0 <= j < k - 1 ==> rest[j] == units[j + 1];
    }
    if k :| 0 <= k < |rest| && rest[k] == x && policy <= x && forall j :: 0 <= j < k ==> !(policy <= rest[j]) {
      assert units[k + 1] == x && forall j :: 0 < j < k + 1 ==> units[j] == rest[j - 1];
    }
  }

  /** The nonce of `u` is at most that of `v`; a datum that does not decode counts as nonce 0. */
  ghost predicate AtMost(u: PairUtxo, v: PairUtxo) {
    (if u.nonce.None? then 0 else u.nonce.value) <= (if v.nonce.None? then 0 else v.nonce.value)
  }

  /** Position `i` of the listing is the first of the highest nonce among those whose first matching unit is `x`. */
  ghost predicate Survives(all: seq<PairUtxo>, policy: string, x: string, i: nat) {
    && i < |all| && FirstMatching(all[i].units, policy, x)
    && forall j :: 0 <= j < |all| && j != i && FirstMatching(all[j].units, policy, x) ==>
         AtMost(all[j], all[i]) && (j < i ==> !AtMost(all[i], all[j]))
  }

  lemma {:induction false} KeeperSurvives(all: seq<PairUtxo>, policy: string, x: string) returns (i: nat)
    requires Group(all, policy, x) != []
    ensures i < |all| && Survives(all, policy, x, i) && all[i] == Keeper(Group(all, policy, x))
  {
    hide FirstMatching, Survives, Keeper, AtMost, Nonce;
    var rest := all[1..];
    var group := Group(rest, policy, x);
    PairUnitExactly(all[0].units, policy);
    assert Group(all, policy, x) == if FirstMatching(all[0].units, policy, x) then [all[0]] + group else group;
    KeeperOfMore(all[0], group);
    if group == [] {
      i := 0;
      FirstSurvives(all, policy, x);
    } else {
      var k := KeeperSurvives(rest, policy, x);
      if FirstMatching(all[0].units, policy, x) && Nonce(all[0]) >= Nonce(rest[k]) {
        i := 0;
        FirstOutranks(all, policy, x, k);
      } else {
        i := k + 1;
        StillSurvives(all, policy, x, k);
      }
    }
  }

  lemma KeeperOfMore(u: PairUtxo, group: seq<PairUtxo>)
    ensures Keeper([u] + group) == if group == [] || Nonce(u) >= Nonce(Keeper(group)) then u else Keeper(group)
  {
    assert ([u] + group)[1..] == group;
    InsertByNonceFacts(u, SortByNonce(group));
    SortByNonceFacts(group);
  }

  lemma FirstSurvives(all: seq<PairUtxo>, policy: string, x: string)
    requires all != [] && FirstMatching(all[0].units, policy, x) && Group(all[1..], policy, x) == []
    ensures Survives(all, policy, x, 0)
  {
    hide FirstMatching;
    NoneMatch(all[1..], policy, x);
    assert forall j :: 0 < j < |all| ==> all[j] == all[1..][j - 1];
  }

  lemma FirstOutranks(all: seq<PairUtxo>, policy: string, x: string, k: nat)
    requires all != [] && FirstMatching(all[0].units, policy, x)
    requires Survives(all[1..], policy, x, k) && Nonce(all[0]) >= Nonce(all[1..][k])
    ensures Survives(all, policy, x, 0)
  {
    hide FirstMatching;
    assert forall j :: 0 < j < |all| ==> all[j] == all[1..][j - 1];
  }

  lemma StillSurvives(all: seq<PairUtxo>, policy: string, x: string, k: nat)
    requires all != [] && Survives(all[1..], policy, x, k)
    requires FirstMatching(all[0].units, policy, x) ==> Nonce(all[0]) < Nonce(all[1..][k])
    ensures Survives(all, policy, x, k + 1)
  {
    hide FirstMatching;
    assert forall j :: 0 < j < |all| ==> all[j] == all[1..][j - 1];
  }

  lemma NoneMatch(s: seq<PairUtxo>, policy: string, x: string)
    requires Group(s, policy, x) == []
    ensures forall u :: u in s ==> !FirstMatching(u.units, policy, x)
  {
    GroupMembers(s, policy, x);
    forall u | u in s
      ensures !FirstMatching(u.units, policy, x)
    {
      PairUnitExactly(u.units, policy);
    }
  }

  // ----- counting

  function GroupSize(s: seq<PairUtxo>, policy: string): string -> int {
    (unit: string) => |Group(s, policy, unit)|
  }

  function Excess(s: seq<PairUtxo>, policy: string): string -> int {
    (unit: string) => |Group(s, policy, unit)| - 1
  }

  function Indicator(x: string): string -> int {
    (unit: string) => if unit == x then 1 else 0
  }

  lemma {:induction false} SumIndicator(units: seq<string>, x: string)
    requires Distinct(units)
    ensures Sum(units, Indicator(x)) == if x in units then 1 else 0
  {
    if units != [] {
      SumIndicator(units[1..], x);
      assert units == [units[0]] + units[1..];
      assert units[0] !in units[1..];
    }
  }

  lemma {:induction false} SumPlus(units: seq<string>, f: string -> int, g: string -> int, h: string -> int)
    requires forall x :: x in units ==> h(x) == f(x) + g(x)
    ensures Sum(units, h) == Sum(units, f) + Sum(units, g)
  {
    if units != [] {
      SumPlus(units[1..], f, g, h);
    }
  }

  /** Every pair UTxO is counted in exactly one group. */
  lemma {:induction false} GroupsPartition(s: seq<PairUtxo>, policy: string, units: seq<string>)
    requires Distinct(units)
    requires forall u: PairUtxo :: u in s && PairUnit(u.units, policy).Some? ==>
               PairUnit(u.units, policy).value in units
    ensures Sum(units, GroupSize(s, policy)) == |PairUtxos(s, policy)|
  {
    if s == [] {
      SumZero(units, GroupSize(s, policy));
    } else {
      GroupsPartition(s[1..], policy, units);
      var unit := PairUnit(s[0].units, policy);
      if unit.Some? {
        assert s[0] in s;
        SumPlus(units, GroupSize(s[1..], policy), Indicator(unit.value), GroupSize(s, policy));
        SumIndicator(units, unit.value);
      } else {
        SumEqual(units, GroupSize(s[1..], policy), GroupSize(s, policy));
      }
    }
  }

  lemma {:induction false} SumZero(units: seq<string>, f: string -> int)
    requires forall x :: x in units ==> f(x) == 0
    ensures Sum(units, f) == 0
  {
    if units != [] {
      SumZero(units[1..], f);
    }
  }

  lemma {:induction false} SumEqual(units: seq<string>, f: string -> int, g: string -> int)
    requires forall x :: x in units ==> f(x) == g(x)
    ensures Sum(units, f) == Sum(units, g)
  {
    if units != [] {
      SumEqual(units[1..], f, g);
    }
  }

  lemma {:induction false} SumMinusOne(units: seq<string>, f: string -> int, g: string -> int)
    requires forall x :: x in units ==> g(x) == f(x) - 1
    ensures Sum(units, g) == Sum(units, f) - |units|
  {
    if units != [] {
      SumMinusOne(units[1..], f, g);
    }
  }

  /** The units whose group has more than one member, in the order of first appearance. */
  function Duplicated(units: seq<string>, all: seq<PairUtxo>, policy: string): seq<string> {
    if units == [] then []
    else if |Group(all, policy, units[0])| > 1 then [units[0]] + Duplicated(units[1..], all, policy)
    else Duplicated(units[1..], all, policy)
  }

  lemma {:induction false} DuplicatedFacts(units: seq<string>, all: seq<PairUtxo>, policy: string)
    requires forall x :: x in units ==> Group(all, policy, x) != []
    ensures forall x :: x in Duplicated(units, all, policy) <==> x in units && |Group(all, policy, x)| > 1
    ensures Sum(Duplicated(units, all, policy), Excess(all, policy)) == Sum(units, Excess(all, policy))
    ensures Distinct(units) ==> Distinct(Duplicated(units, all, policy))
  {
    if units != [] {
      DuplicatedFacts(units[1..], all, policy);
      assert units == [units[0]] + units[1..];
    }
  }

  /** The distinct units of a listing. */
  ghost predicate AreUnits(units: seq<string>, all: seq<PairUtxo>, policy: string) {
    Distinct(units) && forall x :: x in units <==> Group(all, policy, x) != []
  }

  lemma ExcessCount(all: seq<PairUtxo>, policy: string, units: seq<string>)
    requires AreUnits(units, all, policy)
    ensures Sum(units, Excess(all, policy)) == |PairUtxos(all, policy)| - |units|
  {
    forall u | u in all && PairUnit(u.units, policy).Some?
      ensures PairUnit(u.units, policy).value in units
    {
      GroupMembers(all, policy, PairUnit(u.units, policy).value);
    }
    GroupsPartition(all, policy, units);
    SumMinusOne(units, GroupSize(all, policy), Excess(all, policy));
  }

  // ----- the command

  ghost predicate Grouped(order: seq<string>, byUnit: map<string, seq<PairUtxo>>, s: seq<PairUtxo>, policy: string) {
    && AreUnits(order, s, policy)
    && (forall x :: x in byUnit <==> x in order)
    && (forall x :: x in byUnit ==> byUnit[x] == Group(s, policy, x))
  }

  /** What one more UTxO does to the groups. */
  lemma GroupsExtend(s: seq<PairUtxo>, u: PairUtxo, policy: string)
    ensures forall x: string ::
      Group(s + [u], policy, x) == Group(s, policy, x) + if PairUnit(u.units, policy) == Some(x) then [u] else []
  {
    forall x: string
      ensures Group(s + [u], policy, x)
           == Group(s, policy, x) + if PairUnit(u.units, policy) == Some(x) then [u] else []
    {
      GroupExtend(s, u, policy, x);
    }
  }

  lemma ForeignUtxo(order: seq<string>, byUnit: map<string, seq<PairUtxo>>, s: seq<PairUtxo>, u: PairUtxo,
                    policy: string)
    requires Grouped(order, byUnit, s, policy) && PairUnit(u.units, policy).None?
    ensures Grouped(order, byUnit, s + [u], policy)
  {
    GroupsExtend(s, u, policy);
  }

  lemma KnownUnit(order: seq<string>, byUnit: map<string, seq<PairUtxo>>, s: seq<PairUtxo>, u: PairUtxo,
                  policy: string, x: string)
    requires Grouped(order, byUnit, s, policy) && PairUnit(u.units, policy) == Some(x) && x in byUnit
    ensures Grouped(order, byUnit[x := byUnit[x] + [u]], s + [u], policy)
  {
    GroupsExtend(s, u, policy);
  }

  lemma NewUnit(order: seq<string>, byUnit: map<string, seq<PairUtxo>>, s: seq<PairUtxo>, u: PairUtxo,
                policy: string, x: string)
    requires Grouped(order, byUnit, s, policy) && PairUnit(u.units, policy) == Some(x) && x !in byUnit
    ensures Grouped(order + [x], byUnit[x := [u]], s + [u], policy)
  {
    GroupsExtend(s, u, policy);
    assert Group(s, policy, x) == [];
  }

  lemma GroupsSpelledOut(order: seq<string>, byUnit: map<string, seq<PairUtxo>>, all: seq<PairUtxo>, policy: string)
    requires Grouped(order, byUnit, all, policy)
    ensures forall x, u ::
      (x in byUnit && u in byUnit[x]) <==> (u in all && FirstMatching(u.units, policy, x))
  {
    hide FirstMatching;
    forall x, u
      ensures (x in byUnit && u in byUnit[x]) <==> (u in all && FirstMatching(u.units, policy, x))
    {
      PairUnitExactly(u.units, policy);
      GroupMembers(all, policy, x);
    }
  }

  method GroupByUnit(all: seq<PairUtxo>, policy: string)
    returns (order: seq<string>, byUnit: map<string, seq<PairUtxo>>)
    ensures Grouped(order, byUnit, all, policy)
    ensures forall x, u ::
      (x in byUnit && u in byUnit[x]) <==> (u in all && FirstMatching(u.units, policy, x))
  {
    order, byUnit := [], map[];
    for k := 0 to |all|
      invariant Grouped(order, byUnit, all[..k], policy)
    {
      assert all[..k + 1] == all[..k] + [all[k]];
      var unit := PairUnit(all[k].units, policy);
      if unit.None? {
        ForeignUtxo(order, byUnit, all[..k], all[k], policy);
      } else if unit.value in byUnit {
        KnownUnit(order, byUnit, all[..k], all[k], policy, unit.value);
        byUnit := byUnit[unit.value := byUnit[unit.value] + [all[k]]];
      } else {
        NewUnit(order, byUnit, all[..k], all[k], policy, unit.value);
        order, byUnit := order + [unit.value], byUnit[unit.value := [all[k]]];
      }
    }
    assert all[..|all|] == all;
    GroupsSpelledOut(order, byUnit, all, policy);
  }

  ghost predicate AllStale(s: seq<PairUtxo>, all: seq<PairUtxo>, policy: string) {
    forall u :: u in s ==> u in all && Stale(all, policy, u)
  }

  lemma SortedGroup(all: seq<PairUtxo>, policy: string, unit: string)
    requires DistinctRefs(all) && Group(all, policy, unit) != []
    ensures var group := Group(all, policy, unit);
      var sorted := SortByNonce(group);
      && |sorted| == |group| && Keeper(group) in group
      && (forall u :: u in group ==> u == Keeper(group) || u in sorted[1..])
      && AllStale(sorted[1..], all, policy)
  {
    var group := Group(all, policy, unit);
    var sorted := SortByNonce(group);
    SortByNonceFacts(group);
    GroupMembers(all, policy, unit);
    SameMembers(sorted, group);
    assert sorted == [sorted[0]] + sorted[1..];
    if sorted[0] in sorted[1..] {
      assert multiset(sorted) == multiset{sorted[0]} + multiset(sorted[1..]);
      OnlyOnce(group, sorted[0]);
    }
  }

  lemma TailIsStale(all: seq<PairUtxo>, policy: string, unit: string)
    requires DistinctRefs(all) && Group(all, policy, unit) != []
    ensures var sorted := SortByNonce(Group(all, policy, unit));
      sorted != [] && AllStale(sorted[1..], all, policy)
  {
    SortedGroup(all, policy, unit);
  }

  lemma SameMembers(s: seq<PairUtxo>, t: seq<PairUtxo>)
    requires multiset(s) == multiset(t)
    ensures forall u :: u in s <==> u in t
  {
    forall u
      ensures u in s <==> u in t
    {
      assert u in multiset(s) <==> u in multiset(t);
    }
  }

  lemma OnlyOnce(s: seq<PairUtxo>, x: PairUtxo)
    requires DistinctRefs(s)
    ensures multiset(s)[x] <= 1
  {
    if x in s {
      var i :| 0 <= i < |s| && s[i] == x;
      assert s == s[..i] + [s[i]] + s[i + 1..];
      assert x !in s[..i] && x !in s[i + 1..];
    }
  }

  function Refs(s: seq<PairUtxo>): (refs: seq<OutRef>)
    ensures |refs| == |s|
  {
    seq(|s|, i requires 0 <= i < |s| => s[i].outRef)
  }

  ghost predicate Outage(outcomes: nat -> BurnOutcome) {
    exists n: nat :: !outcomes(n).Confirmed?
  }

  lemma StaleRefKnown(s: seq<PairUtxo>, k: nat, all: seq<PairUtxo>, policy: string)
    requires AllStale(s, all, policy) && k < |s|
    ensures s[k].outRef in StaleRefs(all, policy)
  {
    assert s[k] in s;
  }

  /** Burns one group's stale UTxOs. `n` burns were sent before; `dead` is what they removed. */
  method BurnStale(addr: PairAddress, toBurn: seq<PairUtxo>, buildOnly: bool, outcomes: nat -> BurnOutcome, n: nat,
                   ghost all: seq<PairUtxo>, ghost policy: string, ghost dead: set<OutRef>)
    returns (r: Result<seq<OutRef>, ()>, ghost dead': set<OutRef>)
    requires addr.utxos == Without(all, dead) && dead <= StaleRefs(all, policy) && (buildOnly ==> dead == {})
    requires AllStale(toBurn, all, policy)
    modifies addr
    ensures addr.utxos == Without(all, dead') && dead <= dead' <= StaleRefs(all, policy)
    ensures buildOnly ==> dead' == {}
    ensures r.Ok? ==> r.value == Refs(toBurn)
    ensures r.Ok? && !buildOnly ==> forall u :: u in toBurn ==> u.outRef in dead'
    ensures r.Err? ==> !buildOnly && Outage(outcomes)
  {
    hide Without, StaleRefs, AllStale, Stale;
    dead' := dead;
    var burnedRefs: seq<OutRef> := [];
    for k := 0 to |toBurn|
      invariant addr.utxos == Without(all, dead') && dead <= dead' <= StaleRefs(all, policy)
      invariant buildOnly ==> dead' == {}
      invariant burnedRefs == Refs(toBurn[..k])
      invariant !buildOnly ==> forall j :: 0 <= j < k ==> toBurn[j].outRef in dead'
    {
      var outRef := toBurn[k].outRef;
      if !buildOnly {
        if outcomes(n + k) != FailedUnspent {
          StaleRefKnown(toBurn, k, all, policy);
          WithoutTwice(all, dead', {outRef});
          addr.Spend(outRef);
          dead' := dead' + {outRef};
        }
        if !outcomes(n + k).Confirmed? {
          return Err(()), dead';
        }
      }
      burnedRefs := burnedRefs + [outRef];
    }
    assert toBurn[..|toBurn|] == toBurn;
    return Ok(burnedRefs), dead';
  }

  /** The stale members of the groups of `units` are all among `dead`. */
  ghost predicate Cleared(units: seq<string>, all: seq<PairUtxo>, policy: string, dead: set<OutRef>) {
    forall x, u :: x in units && u in Group(all, policy, x) && Stale(all, policy, u) ==> u.outRef in dead
  }

  lemma ClearedExtend(units: seq<string>, x: string, all: seq<PairUtxo>, policy: string,
                      dead: set<OutRef>, dead': set<OutRef>)
    requires DistinctRefs(all) && Group(all, policy, x) != []
    requires Cleared(units, all, policy, dead) && dead <= dead'
    requires forall u :: u in SortByNonce(Group(all, policy, x))[1..] ==> u.outRef in dead'
    ensures Cleared(units + [x], all, policy, dead')
  {
    SortedGroup(all, policy, x);
    GroupMembers(all, policy, x);
  }

  lemma ClearedAll(units: seq<string>, all: seq<PairUtxo>, policy: string, dead: set<OutRef>)
    requires DistinctRefs(all) && AreUnits(units, all, policy)
    requires Cleared(Duplicated(units, all, policy), all, policy, dead) && dead <= StaleRefs(all, policy)
    ensures dead == StaleRefs(all, policy)
  {
    DuplicatedFacts(units, all, policy);
    forall u | u in all && Stale(all, policy, u)
      ensures u.outRef in dead
    {
      var x := PairUnit(u.units, policy).value;
      GroupMembers(all, policy, x);
      SortedGroup(all, policy, x);
      TwoMembers(Group(all, policy, x), u, Keeper(Group(all, policy, x)));
      assert x in Duplicated(units, all, policy);
    }
  }

  // ----- what the command does to the address and what it reports, spelled out

  /** Only UTxOs with a unit of the policy go, and each leaves a UTxO of its first unit behind that outranks it. */
  ghost predicate OnlyOutrankedGo(before: seq<PairUtxo>, after: seq<PairUtxo>, policy: string) {
    && (forall u :: u in after ==> u in before)
    && (forall u: PairUtxo ::
          u in before && (forall k :: 0 <= k < |u.units| ==> !(policy <= u.units[k])) ==> u in after)
    && (forall u :: u in before && u !in after ==> exists x, v :: Outranked(u, v, x, policy) && v in after)
  }

  ghost predicate Outranked(u: PairUtxo, v: PairUtxo, x: string, policy: string) {
    u != v && FirstMatching(u.units, policy, x) && FirstMatching(v.units, policy, x) && AtMost(u, v)
  }

  lemma GoneAreOutranked(all: seq<PairUtxo>, policy: string, dead: set<OutRef>)
    requires DistinctRefs(all) && dead <= StaleRefs(all, policy)
    ensures OnlyOutrankedGo(all, Without(all, dead), policy)
  {
    hide FirstMatching;
    var after := Without(all, dead);
    WithoutMembers(all, dead);
    AfterMembers(all, policy);
    WithoutMembers(all, StaleRefs(all, policy));
    forall u | u in all && u !in after
      ensures PairUnit(u.units, policy).Some?
      ensures exists x, v :: Outranked(u, v, x, policy) && v in after
    {
      var x := PairUnit(u.units, policy).value;
      var v := Keeper(Group(all, policy, x));
      SortedGroup(all, policy, x);
      GroupMembers(all, policy, x);
      KeeperOutranks(all, policy, x, u);
      PairUnitExactly(v.units, policy);
      assert !Stale(all, policy, v);
      assert Outranked(u, v, x, policy) && v in after;
    }
    forall u: PairUtxo | u in all && (forall k :: 0 <= k < |u.units| ==> !(policy <= u.units[k]))
      ensures u in after
    {
      PairUnitExactly(u.units, policy);
    }
  }

  lemma KeeperOutranks(all: seq<PairUtxo>, policy: string, x: string, u: PairUtxo)
    requires u in all && PairUnit(u.units, policy) == Some(x) && Group(all, policy, x) != []
    ensures FirstMatching(u.units, policy, x) && AtMost(u, Keeper(Group(all, policy, x)))
  {
    GroupMembers(all, policy, x);
    SortByNonceFacts(Group(all, policy, x));
    PairUnitExactly(u.units, policy);
  }

  /** The UTxOs the command looks at are those with some unit of the policy. */
  lemma {:induction false} ScannedArePositions(all: seq<PairUtxo>, policy: string)
    ensures |PairUtxos(all, policy)|
         == |set i: nat | i < |all| && (exists k :: 0 <= k < |all[i].units| && policy <= all[i].units[k])|
  {
    if all != [] {
      var rest := all[1..];
      ScannedArePositions(rest, policy);
      PairUnitExactly(all[0].units, policy);
      OnePositionMore(set i: nat | i < |rest| && (exists k :: 0 <= k < |rest[i].units| && policy <= rest[i].units[k]),
                      set i: nat | i < |all| && (exists k :: 0 <= k < |all[i].units| && policy <= all[i].units[k]));
    }
  }

  /** Position `i` is not the only one with the first matching unit `x`. */
  ghost predicate Shared(all: seq<PairUtxo>, policy: string, x: string) {
    exists i, j :: 0 <= i < j < |all|
      && FirstMatching(all[i].units, policy, x) && FirstMatching(all[j].units, policy, x)
  }

  /** A reported entry names the survivor of a unit, and exactly the other UTxOs of the unit as burned. */
  ghost predicate Entry(all: seq<PairUtxo>, policy: string, x: string, entry: Kept) {
    exists i: nat :: i < |all| && Survives(all, policy, x, i) && entry.kept == all[i].outRef && forall r ::
      r in entry.burned <==> exists j: nat ::
        j < |all| && j != i && FirstMatching(all[j].units, policy, x) && all[j].outRef == r
  }

  /** The report, read off the listing: what was looked at, which units several UTxOs share, and an entry for each. */
  ghost predicate ReportFits(report: Report, all: seq<PairUtxo>, policy: string) {
    && report.scanned
       == |set i: nat | i < |all| && (exists k :: 0 <= k < |all[i].units| && policy <= all[i].units[k])|
    && (forall x :: x in report.details <==> Shared(all, policy, x))
    && (forall x :: x in report.details ==> policy <= x && Entry(all, policy, x, report.details[x]))
  }

  ghost predicate OneEach(utxos: seq<PairUtxo>, policy: string) {
    forall x, u, v :: u in utxos && v in utxos && FirstMatching(u.units, policy, x) && FirstMatching(v.units, policy, x)
      ==> u == v
  }

  lemma ReportedFits(report: Report, units: seq<string>, all: seq<PairUtxo>, policy: string)
    requires DistinctRefs(all) && AreUnits(units, all, policy) && report.scanned == |PairUtxos(all, policy)|
    requires ReportedFor(Duplicated(units, all, policy), report.details, all, policy)
    ensures ReportFits(report, all, policy)
  {
    hide FirstMatching, Shared, Entry, Group;
    ScannedArePositions(all, policy);
    DuplicatedFacts(units, all, policy);
    forall x
      ensures x in report.details <==> Shared(all, policy, x)
      ensures x in report.details ==> policy <= x && Entry(all, policy, x, report.details[x])
    {
      SharedExactly(all, policy, x);
      if x in report.details {
        EntryOf(all, policy, x);
        KeysMatch(all, policy, x);
      }
    }
  }

  lemma KeysMatch(all: seq<PairUtxo>, policy: string, x: string)
    requires Group(all, policy, x) != []
    ensures policy <= x
  {
    var i := KeeperSurvives(all, policy, x);
  }

  lemma OneEachFromUnits(utxos: seq<PairUtxo>, policy: string)
    requires forall u, v :: u in utxos && v in utxos && SameUnit(u, v, policy) ==> u == v
    ensures OneEach(utxos, policy)
  {
    hide FirstMatching;
    forall x, u, v | u in utxos && v in utxos && FirstMatching(u.units, policy, x) && FirstMatching(v.units, policy, x)
      ensures u == v
    {
      PairUnitExactly(u.units, policy);
      PairUnitExactly(v.units, policy);
      assert SameUnit(u, v, policy);
    }
  }

  lemma SharedExactly(all: seq<PairUtxo>, policy: string, x: string)
    requires DistinctRefs(all)
    ensures |Group(all, policy, x)| > 1 <==> Shared(all, policy, x)
  {
    hide FirstMatching, Group;
    var group := Group(all, policy, x);
    GroupMembers(all, policy, x);
    forall u: PairUtxo
      ensures PairUnit(u.units, policy) == Some(x) <==> FirstMatching(u.units, policy, x)
    {
      PairUnitExactly(u.units, policy);
    }
    if |group| > 1 {
      assert group[0] in group && group[1] in group && group[0] != group[1];
      var i, j :| 0 <= i < |all| && 0 <= j < |all| && all[i] == group[0] && all[j] == group[1];
      assert i < j || j < i;
    }
    if i, j :| 0 <= i < j < |all| && FirstMatching(all[i].units, policy, x) && FirstMatching(all[j].units, policy, x) {
      TwoMembers(group, all[i], all[j]);
    }
  }

  lemma EntryOf(all: seq<PairUtxo>, policy: string, x: string)
    requires DistinctRefs(all) && Group(all, policy, x) != []
    ensures Entry(all, policy, x, KeptOf(Group(all, policy, x)))
  {
    hide FirstMatching, Group, SortByNonce, Survives, PairUnit;
    var group := Group(all, policy, x);
    SortedGroup(all, policy, x);
    var stale := SortByNonce(group)[1..];
    var i := KeeperSurvives(all, policy, x);
    GroupMembers(all, policy, x);
    StaleMembers(all, policy, x);
    forall r
      ensures r in Refs(stale) <==> exists j: nat ::
        j < |all| && j != i && FirstMatching(all[j].units, policy, x) && all[j].outRef == r
    {
      if r in Refs(stale) {
        var a :| 0 <= a < |stale| && Refs(stale)[a] == r;
        assert stale[a] in stale;
        var j: nat :| j < |all| && all[j] == stale[a];
        assert j != i && all[j].outRef == r;
      }
      if j: nat :| j < |all| && j != i && FirstMatching(all[j].units, policy, x) && all[j].outRef == r {
        PairUnitExactly(all[j].units, policy);
        assert all[j] in stale;
        var a :| 0 <= a < |stale| && stale[a] == all[j];
        assert Refs(stale)[a] == r;
      }
    }
  }

  lemma StaleMembers(all: seq<PairUtxo>, policy: string, x: string)
    requires DistinctRefs(all) && Group(all, policy, x) != []
    ensures var group := Group(all, policy, x);
      forall u :: u in SortByNonce(group)[1..] ==> u in all && FirstMatching(u.units, policy, x) && u != Keeper(group)
  {
    hide FirstMatching;
    var group := Group(all, policy, x);
    SortedGroup(all, policy, x);
    GroupMembers(all, policy, x);
    SortByNonceFacts(group);
    SameMembers(SortByNonce(group), group);
    forall u | u in SortByNonce(group)[1..]
      ensures u in all && FirstMatching(u.units, policy, x) && u != Keeper(group)
    {
      assert u in SortByNonce(group);
      PairUnitExactly(u.units, policy);
    }
  }

  ghost predicate InOrder(s: seq<PairUtxo>) {
    forall a, b :: 0 <= a < b < |s| ==> AtMost(s[b], s[a])
  }

  /** The UTxOs of a unit are burned highest nonce first. */
  lemma {:induction false} BurnedInOrder(s: seq<PairUtxo>)
    ensures InOrder(SortByNonce(s))
  {
    hide InOrder, InsertByNonce;
    if s == [] {
      NothingInOrder();
    } else {
      BurnedInOrder(s[1..]);
      InsertKeepsOrder(s[0], SortByNonce(s[1..]));
    }
  }

  lemma NothingInOrder()
    ensures InOrder([])
  {
  }

  lemma {:induction false} InsertKeepsOrder(u: PairUtxo, s: seq<PairUtxo>)
    requires InOrder(s)
    ensures InOrder(InsertByNonce(u, s))
  {
    if s != [] && Nonce(u) < Nonce(s[0]) {
      InsertKeepsOrder(u, s[1..]);
      InsertByNonceFacts(u, s[1..]);
      HeadStaysFirst(u, s, InsertByNonce(u, s[1..]));
    }
  }

  lemma HeadStaysFirst(u: PairUtxo, s: seq<PairUtxo>, rest: seq<PairUtxo>)
    requires s != [] && InOrder(s) && Nonce(u) < Nonce(s[0])
    requires InOrder(rest) && multiset(rest) == multiset(s[1..]) + multiset{u}
    ensures InOrder([s[0]] + rest)
  {
    forall k | 0 <= k < |rest|
      ensures AtMost(rest[k], s[0])
    {
      assert rest[k] in multiset(rest);
      assert rest[k] == u || rest[k] in s[1..];
    }
  }

  method PairDedup(addr: PairAddress, policy: string, buildOnly: bool, outcomes: nat -> BurnOutcome)
    returns (r: Result<Report, ()>, ghost units: seq<string>, ghost dead: set<OutRef>)
    requires DistinctRefs(addr.utxos)
    modifies addr
    ensures AreUnits(units, old(addr.utxos), policy)
    // at every exit, also after an outage, only stale UTxOs are gone
    ensures dead <= StaleRefs(old(addr.utxos), policy) && addr.utxos == Without(old(addr.utxos), dead)
    ensures buildOnly ==> dead == {} && addr.utxos == old(addr.utxos)
    ensures r.Ok? && !buildOnly ==> dead == StaleRefs(old(addr.utxos), policy)
    ensures r.Ok? ==>
      && r.value.scanned == |PairUtxos(old(addr.utxos), policy)|
      && r.value.burned == r.value.scanned - |units|
      && r.value.duplicateUnits == |Duplicated(units, old(addr.utxos), policy)|
      && (forall x :: x in r.value.details <==> x in Duplicated(units, old(addr.utxos), policy))
    ensures r.Ok? ==> Reported(r.value.details, old(addr.utxos), policy)
    ensures r.Err? ==> !buildOnly && Outage(outcomes)
    // the same without the command's own grouping and sorting
    ensures OnlyOutrankedGo(old(addr.utxos), addr.utxos, policy)
    ensures r.Ok? ==> ReportFits(r.value, old(addr.utxos), policy)
    ensures r.Ok? && !buildOnly ==> OneEach(addr.utxos, policy)
  {
    var all := addr.utxos;
    var order, byUnit := GroupByUnit(all, policy);
    units := order;
    WithoutNone(all);
    ExcessCount(all, policy, order);
    DuplicatedFacts(order, all, policy);
    var duplicates := Duplicated(order, all, policy);
    var burned, details, failed;
    failed, burned, details, dead := BurnDuplicates(addr, duplicates, byUnit, policy, buildOnly, outcomes, all);
    GoneAreOutranked(all, policy, dead);
    if failed {
      return Err(()), units, dead;
    }
    ReportedFits(Report(|PairUtxos(all, policy)|, |duplicates|, burned, details), units, all, policy);
    if !buildOnly {
      ClearedAll(units, all, policy, dead);
      DedupRestoresSingletons(all, policy);
    }
    return Ok(Report(|PairUtxos(all, policy)|, |duplicates|, burned, details)), units, dead;
  }

  method BurnDuplicates(addr: PairAddress, duplicates: seq<string>, byUnit: map<string, seq<PairUtxo>>, policy: string,
                        buildOnly: bool, outcomes: nat -> BurnOutcome, ghost all: seq<PairUtxo>)
    returns (failed: bool, burned: nat, details: map<string, Kept>, ghost dead: set<OutRef>)
    requires DistinctRefs(all) && addr.utxos == Without(all, {})
    requires forall x :: x in duplicates ==> x in byUnit && byUnit[x] == Group(all, policy, x) != []
    modifies addr
    ensures addr.utxos == Without(all, dead) && dead <= StaleRefs(all, policy) && (buildOnly ==> dead == {})
    ensures failed ==> !buildOnly && Outage(outcomes)
    ensures !failed ==> burned == Sum(duplicates, Excess(all, policy))
    ensures !failed ==> ReportedFor(duplicates, details, all, policy)
    ensures !failed && !buildOnly ==> Cleared(duplicates, all, policy, dead)
  {
    hide Without, Stale, StaleRefs, AllStale, Cleared, Reported, ReportedFor, Group, SortByNonce, Refs;
    burned, details, dead := 0, map[], {};
    NothingReported(all, policy);
    for d := 0 to |duplicates|
      invariant addr.utxos == Without(all, dead) && dead <= StaleRefs(all, policy) && (buildOnly ==> dead == {})
      invariant burned == Sum(duplicates[..d], Excess(all, policy))
      invariant ReportedFor(duplicates[..d], details, all, policy)
      invariant !buildOnly ==> Cleared(duplicates[..d], all, policy, dead)
    {
      var unit := duplicates[d];
      TailIsStale(all, policy, unit);
      var sorted := SortByNonce(byUnit[unit]);
      var burnedRefs, dead' := BurnStale(addr, sorted[1..], buildOnly, outcomes, burned, all, policy, dead);
      if burnedRefs.Err? {
        return true, burned, details, dead';
      }
      assert duplicates[..d + 1] == duplicates[..d] + [unit];
      UnitDone(duplicates[..d], unit, details, all, policy, buildOnly, dead, dead');
      dead, burned := dead', burned + |burnedRefs.value|;
      assert Kept(sorted[0].outRef, burnedRefs.value) == KeptOf(Group(all, policy, unit));
      details := details[unit := Kept(sorted[0].outRef, burnedRefs.value)];
    }
    assert duplicates[..|duplicates|] == duplicates;
    failed := false;
  }

  /** Each reported unit names its survivor and, highest nonce first, the UTxOs burned. */
  ghost predicate Reported(details: map<string, Kept>, all: seq<PairUtxo>, policy: string) {
    forall x :: x in details ==> (Group(all, policy, x) != [] && details[x] == KeptOf(Group(all, policy, x)))
  }

  ghost predicate ReportedFor(units: seq<string>, details: map<string, Kept>, all: seq<PairUtxo>, policy: string) {
    Reported(details, all, policy) && forall x :: x in details <==> x in units
  }

  lemma NothingReported(all: seq<PairUtxo>, policy: string)
    ensures ReportedFor([], map[], all, policy) && Cleared([], all, policy, {})
  {
  }

  lemma OneMoreReported(units: seq<string>, unit: string, details: map<string, Kept>, all: seq<PairUtxo>,
                        policy: string)
    requires ReportedFor(units, details, all, policy) && Group(all, policy, unit) != []
    ensures ReportedFor(units + [unit], details[unit := KeptOf(Group(all, policy, unit))], all, policy)
    ensures Sum(units + [unit], Excess(all, policy))
         == Sum(units, Excess(all, policy)) + |Refs(SortByNonce(Group(all, policy, unit))[1..])|
  {
    SumAppend(units, [unit], Excess(all, policy));
    SortByNonceFacts(Group(all, policy, unit));
  }

  lemma UnitDone(units: seq<string>, unit: string, details: map<string, Kept>, all: seq<PairUtxo>, policy: string,
                 buildOnly: bool, dead: set<OutRef>, dead': set<OutRef>)
    requires DistinctRefs(all) && Group(all, policy, unit) != [] && ReportedFor(units, details, all, policy)
    requires !buildOnly ==>
      && Cleared(units, all, policy, dead) && dead <= dead'
      && forall u :: u in SortByNonce(Group(all, policy, unit))[1..] ==> u.outRef in dead'
    ensures ReportedFor(units + [unit], details[unit := KeptOf(Group(all, policy, unit))], all, policy)
    ensures Sum(units + [unit], Excess(all, policy))
         == Sum(units, Excess(all, policy)) + |Refs(SortByNonce(Group(all, policy, unit))[1..])|
    ensures !buildOnly ==> Cleared(units + [unit], all, policy, dead')
  {
    OneMoreReported(units, unit, details, all, policy);
    if !buildOnly {
      ClearedExtend(units, unit, all, policy, dead, dead');
    }
  }

  function KeptOf(group: seq<PairUtxo>): Kept
    requires group != []
  {
    SortByNonceFacts(group);
    Kept(Keeper(group).outRef, Refs(SortByNonce(group)[1..]))
  }

  lemma TwoMembers(s: seq<PairUtxo>, u: PairUtxo, v: PairUtxo)
    requires u in s && v in s && u != v
    ensures |s| > 1
  {
  }

  // ----- what a completed run leaves

  predicate SameUnit(u: PairUtxo, v: PairUtxo, policy: string) {
    PairUnit(u.units, policy).Some? && PairUnit(u.units, policy) == PairUnit(v.units, policy)
  }

  lemma AfterMembers(all: seq<PairUtxo>, policy: string)
    requires DistinctRefs(all)
    ensures var after := Without(all, StaleRefs(all, policy));
      forall u :: u in after <==> u in all && !Stale(all, policy, u)
  {
    WithoutMembers(all, StaleRefs(all, policy));
    forall u | u in all && u.outRef in StaleRefs(all, policy)
      ensures Stale(all, policy, u)
    {
      var v :| v in all && Stale(all, policy, v) && v.outRef == u.outRef;
      var i, j :| 0 <= i < |all| && 0 <= j < |all| && all[i] == u && all[j] == v;
      assert i == j;
    }
  }

  lemma KeepersRemain(all: seq<PairUtxo>, policy: string)
    requires DistinctRefs(all)
    ensures var after := Without(all, StaleRefs(all, policy));
      && (forall u: PairUtxo :: u in all && PairUnit(u.units, policy).None? ==> u in after)
      && (forall u, v :: u in after && v in after && SameUnit(u, v, policy) ==> u == v)
      && (forall u: PairUtxo :: u in all && PairUnit(u.units, policy).Some? ==>
            exists v :: v in after && SameUnit(u, v, policy) && Nonce(u) <= Nonce(v))
  {
    var after := Without(all, StaleRefs(all, policy));
    AfterMembers(all, policy);
    forall x, u | u in all && PairUnit(u.units, policy) == Some(x)
      ensures Group(all, policy, x) != [] && Keeper(Group(all, policy, x)) in after
      ensures u in after ==> u == Keeper(Group(all, policy, x))
      ensures PairUnit(Keeper(Group(all, policy, x)).units, policy) == Some(x)
      ensures Nonce(u) <= Nonce(Keeper(Group(all, policy, x)))
    {
      GroupMembers(all, policy, x);
      assert u in Group(all, policy, x);
      SortedGroup(all, policy, x);
      SortByNonceFacts(Group(all, policy, x));
    }
  }

  /**
    Every unit keeps exactly one UTxO, it has the unit's highest nonce, and all other UTxOs stay; once in the terms of
    the command's grouping, once in those of units and nonces alone.
   */
  lemma DedupRestoresSingletons(all: seq<PairUtxo>, policy: string)
    requires DistinctRefs(all)
    ensures var after := Without(all, StaleRefs(all, policy));
      && (forall u: PairUtxo :: u in all && PairUnit(u.units, policy).None? ==> u in after)
      && (forall u, v :: u in after && v in after && SameUnit(u, v, policy) ==> u == v)
      && (forall u: PairUtxo :: u in all && PairUnit(u.units, policy).Some? ==>
            exists v :: v in after && SameUnit(u, v, policy) && Nonce(u) <= Nonce(v))
      && OnlyOutrankedGo(all, after, policy) && OneEach(after, policy)
  {
    hide SameUnit, Without, StaleRefs, PairUnit, Nonce, OnlyOutrankedGo, OneEach;
    KeepersRemain(all, policy);
    GoneAreOutranked(all, policy, StaleRefs(all, policy));
    OneEachFromUnits(Without(all, StaleRefs(all, policy)), policy);
  }

  /** A second run finds nothing to burn. */
  lemma DedupIsIdempotent(all: seq<PairUtxo>, policy: string)
    requires DistinctRefs(all)
    ensures var after := Without(all, StaleRefs(all, policy));
      StaleRefs(after, policy) == {}
  {
    var after := Without(all, StaleRefs(all, policy));
    DedupRestoresSingletons(all, policy);
    forall u | u in after
      ensures !Stale(after, policy, u)
    {
      var unit := PairUnit(u.units, policy);
      if unit.Some? && Group(after, policy, unit.value) != [] {
        GroupMembers(after, policy, unit.value);
        KeeperInGroup(Group(after, policy, unit.value));
        assert SameUnit(u, Keeper(Group(after, policy, unit.value)), policy);
      }
    }
  }

  lemma KeeperInGroup(group: seq<PairUtxo>)
    requires group != []
    ensures Keeper(group) in group
  {
    SortByNonceFacts(group);
    SameMembers(SortByNonce(group), group);
  }
}

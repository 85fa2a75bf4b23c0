/** Side deposits: which ones a merge sweeps, and how many merges drain an address (transactions/deposit.ts). */
module Deposits {
  import opened Prelude
  import opened Folds

  /** A UTxO at a client's deposit address. Anyone may pay anything there. */
  datatype Deposit = Deposit(outRef: OutRef, lovelace: int, tokens: seq<string>, hasDatum: bool)

  /** Only lovelace, at or above the floor. A datum is not looked at, although the comments exclude it. */
  predicate IsCleanAdaDeposit(d: Deposit, minLovelace: int) {
    d.tokens == [] && d.lovelace >= minLovelace
  }

  function Filter(s: seq<Deposit>, minLovelace: int, clean: bool): seq<Deposit> {
    if s == [] then []
    else if IsCleanAdaDeposit(s[0], minLovelace) == clean then [s[0]] + Filter(s[1..], minLovelace, clean)
    else Filter(s[1..], minLovelace, clean)
  }

  /** The deposits that a merge could sweep. */
  function Clean(s: seq<Deposit>, minLovelace: int): seq<Deposit> {
    Filter(s, minLovelace, true)
  }

  /** Dust and token-bearing UTxOs. */
  function Junk(s: seq<Deposit>, minLovelace: int): seq<Deposit> {
    Filter(s, minLovelace, false)
  }

  /** `slice(0, cap)`: a negative cap counts from the end. */
  function Slice<T>(s: seq<T>, cap: int): seq<T> {
    if cap >= 0 then s[..Min(cap, |s|)] else s[..Max(0, |s| + cap)]
  }

  function Select(listing: seq<Deposit>, minLovelace: int, cap: int): seq<Deposit> {
    Slice(Clean(listing, minLovelace), cap)
  }

  function Lovelace(): Deposit -> int {
    (d: Deposit) => d.lovelace
  }

  function TotalOf(s: seq<Deposit>): int {
    Sum(s, Lovelace())
  }

  /** The address after its first `n` clean deposits have been spent. */
  function Leftover(listing: seq<Deposit>, minLovelace: int, n: nat): seq<Deposit> {
    if listing == [] || n == 0 then listing
    else if IsCleanAdaDeposit(listing[0], minLovelace) then Leftover(listing[1..], minLovelace, n - 1)
    else [listing[0]] + Leftover(listing[1..], minLovelace, n)
  }

  datatype MergeError = NothingEligible

  datatype Merged = Merged(balance: int, left: seq<Deposit>)

  function Merge(balance: int, listing: seq<Deposit>, minLovelace: int, cap: int): Result<Merged, MergeError> {
    var eligible := Select(listing, minLovelace, cap);
    if eligible == [] then Err(NothingEligible)
    else Ok(Merged(balance + TotalOf(eligible), Leftover(listing, minLovelace, |eligible|)))
  }

  // ----- what one merge does

  lemma {:induction false} LeftoverFilters(s: seq<Deposit>, minLovelace: int, n: nat)
    requires n <= |Clean(s, minLovelace)|
    ensures Clean(Leftover(s, minLovelace, n), minLovelace) == Clean(s, minLovelace)[n..]
    ensures Junk(Leftover(s, minLovelace, n), minLovelace) == Junk(s, minLovelace)
  {
    if s == [] || n == 0 {
    } else if IsCleanAdaDeposit(s[0], minLovelace) {
      LeftoverFilters(s[1..], minLovelace, n - 1);
    } else {
      LeftoverFilters(s[1..], minLovelace, n);
      assert Leftover(s, minLovelace, n)[1..] == Leftover(s[1..], minLovelace, n);
    }
  }

  lemma HeadCounts(x: Deposit, rest: seq<Deposit>)
    ensures multiset([x] + rest) == multiset{x} + multiset(rest)
  {
  }

  lemma LeftoverStep(s: seq<Deposit>, minLovelace: int, n: nat)
    requires s != [] && 0 < n <= |Clean(s, minLovelace)|
    ensures IsCleanAdaDeposit(s[0], minLovelace) ==>
      && n - 1 <= |Clean(s[1..], minLovelace)|
      && Clean(s, minLovelace)[..n] == [s[0]] + Clean(s[1..], minLovelace)[..n - 1]
      && Leftover(s, minLovelace, n) == Leftover(s[1..], minLovelace, n - 1)
    ensures !IsCleanAdaDeposit(s[0], minLovelace) ==>
      && Clean(s, minLovelace) == Clean(s[1..], minLovelace)
      && Leftover(s, minLovelace, n) == [s[0]] + Leftover(s[1..], minLovelace, n)
  {
  }

  lemma {:induction false} LeftoverContents(s: seq<Deposit>, minLovelace: int, n: nat)
    requires n <= |Clean(s, minLovelace)|
    ensures multiset(s) == multiset(Clean(s, minLovelace)[..n]) + multiset(Leftover(s, minLovelace, n))
  {
    if s == [] || n == 0 {
      assert Clean(s, minLovelace)[..n] == [];
    } else {
      var x, rest := s[0], s[1..];
      LeftoverStep(s, minLovelace, n);
      HeadCounts(x, rest);
      assert s == [x] + rest;
      if IsCleanAdaDeposit(x, minLovelace) {
        hide Filter, Leftover;
        LeftoverContents(rest, minLovelace, n - 1);
        HeadCounts(x, Clean(rest, minLovelace)[..n - 1]);
      } else {
        hide Filter, Leftover;
        LeftoverContents(rest, minLovelace, n);
        HeadCounts(x, Leftover(rest, minLovelace, n));
      }
    }
  }

  lemma LeftoverFacts(s: seq<Deposit>, minLovelace: int, n: nat)
    requires n <= |Clean(s, minLovelace)|
    ensures var left := Leftover(s, minLovelace, n);
      && Clean(left, minLovelace) == Clean(s, minLovelace)[n..]
      && Junk(left, minLovelace) == Junk(s, minLovelace)
      && multiset(s) == multiset(Clean(s, minLovelace)[..n]) + multiset(left)
  {
    LeftoverFilters(s, minLovelace, n);
    LeftoverContents(s, minLovelace, n);
  }

  lemma {:induction false} FilterCounts(s: seq<Deposit>, minLovelace: int, clean: bool, d: Deposit)
    ensures multiset(Filter(s, minLovelace, clean))[d]
         == if IsCleanAdaDeposit(d, minLovelace) == clean then multiset(s)[d] else 0
  {
    if s != [] {
      FilterCounts(s[1..], minLovelace, clean, d);
      assert s == [s[0]] + s[1..];
    }
  }

  /**
    An address before and after a sweep. Token-bearing UTxOs and those below the floor stay, however many there are of a
    kind; no more go than the cap allows; and a cap that the address does not reach leaves nothing but them.
   */
  ghost predicate CleanSweep(before: seq<Deposit>, after: seq<Deposit>, minLovelace: int, cap: int) {
    && (forall d :: multiset(after)[d] <= multiset(before)[d])
    && (forall d: Deposit :: d.tokens != [] || d.lovelace < minLovelace ==> multiset(after)[d] == multiset(before)[d])
    && (cap >= 0 ==> |before| - |after| <= cap)
    && (cap >= |before| ==> forall d :: d in after ==> d.tokens != [] || d.lovelace < minLovelace)
  }

  /** What is swept holds nothing but lovelace, and at least the floor; all else stays, however it is listed. */
  lemma SweepsOnlyClean(listing: seq<Deposit>, address: seq<Deposit>, minLovelace: int, cap: int)
    requires multiset(listing) == multiset(address)
    ensures var swept := Select(listing, minLovelace, cap);
      && (forall d :: d in swept ==> d.tokens == [] && d.lovelace >= minLovelace)
      && CleanSweep(address, Leftover(listing, minLovelace, |swept|), minLovelace, cap)
  {
    var swept, clean := Select(listing, minLovelace, cap), Clean(listing, minLovelace);
    var left := Leftover(listing, minLovelace, |swept|);
    assert swept == clean[..|swept|];
    LeftoverFacts(listing, minLovelace, |swept|);
    CountsOfSweep(listing, swept, left, minLovelace);
    assert |multiset(address)| == |multiset(swept)| + |multiset(left)|;
    if cap >= |address| {
      FilterIsShorter(listing, minLovelace, true);
      assert |multiset(listing)| == |multiset(address)|;
      assert Clean(left, minLovelace) == [];
      forall d | d in left
        ensures d.tokens != [] || d.lovelace < minLovelace
      {
        FilterCounts(left, minLovelace, true, d);
        assert d in multiset(left);
      }
    }
  }

  lemma CountsOfSweep(listing: seq<Deposit>, swept: seq<Deposit>, left: seq<Deposit>, minLovelace: int)
    requires |swept| <= |Clean(listing, minLovelace)| && swept == Clean(listing, minLovelace)[..|swept|]
    requires multiset(listing) == multiset(swept) + multiset(left)
    ensures forall d :: d in swept ==> d.tokens == [] && d.lovelace >= minLovelace
    ensures forall d :: multiset(left)[d] <= multiset(listing)[d]
    ensures forall d: Deposit :: d.tokens != [] || d.lovelace < minLovelace ==>
              multiset(left)[d] == multiset(listing)[d]
  {
    var clean := Clean(listing, minLovelace);
    forall d | d in swept
      ensures d.tokens == [] && d.lovelace >= minLovelace
    {
      FilterCounts(listing, minLovelace, true, d);
      assert d in clean && d in multiset(clean);
    }
    forall d: Deposit | d.tokens != [] || d.lovelace < minLovelace
      ensures multiset(swept)[d] == 0
    {
      assert d !in swept;
    }
  }

  lemma {:induction false} FilterIsShorter(s: seq<Deposit>, minLovelace: int, clean: bool)
    ensures |Filter(s, minLovelace, clean)| <= |s|
  {
    if s != [] {
      FilterIsShorter(s[1..], minLovelace, clean);
    }
  }

  /** Which deposits are clean does not depend on the order in which the provider lists them. */
  lemma FilterPermutes(s: seq<Deposit>, t: seq<Deposit>, minLovelace: int, clean: bool)
    requires multiset(s) == multiset(t)
    ensures multiset(Filter(s, minLovelace, clean)) == multiset(Filter(t, minLovelace, clean))
    ensures |Filter(s, minLovelace, clean)| == |Filter(t, minLovelace, clean)|
    ensures TotalOf(Filter(s, minLovelace, clean)) == TotalOf(Filter(t, minLovelace, clean))
  {
    forall d: Deposit
      ensures multiset(Filter(s, minLovelace, clean))[d] == multiset(Filter(t, minLovelace, clean))[d]
    {
      FilterCounts(s, minLovelace, clean, d);
      FilterCounts(t, minLovelace, clean, d);
    }
    assert multiset(Filter(s, minLovelace, clean)) == multiset(Filter(t, minLovelace, clean));
    assert |multiset(Filter(s, minLovelace, clean))| == |Filter(s, minLovelace, clean)|;
    SumPermutation(Filter(s, minLovelace, clean), Filter(t, minLovelace, clean), Lovelace());
  }

  /** A merge spends what it credits and leaves everything else, in particular all junk, where it was. */
  lemma MergeIsExact(balance: int, listing: seq<Deposit>, minLovelace: int, cap: int)
    requires Merge(balance, listing, minLovelace, cap).Ok?
    ensures var m := Merge(balance, listing, minLovelace, cap).value;
      && m.balance - balance + TotalOf(m.left) == TotalOf(listing)
      && Junk(m.left, minLovelace) == Junk(listing, minLovelace)
      && multiset(listing) == multiset(Select(listing, minLovelace, cap)) + multiset(m.left)
      && CleanSweep(listing, m.left, minLovelace, cap)
      && m.balance - balance + TotalOf(Clean(m.left, minLovelace)) == TotalOf(Clean(listing, minLovelace))
  {
    var clean, eligible := Clean(listing, minLovelace), Select(listing, minLovelace, cap);
    var n := |eligible|;
    LeftoverFacts(listing, minLovelace, n);
    assert eligible == clean[..n] && clean == clean[..n] + clean[n..];
    SumAppend(clean[..n], clean[n..], Lovelace());
    var left := Leftover(listing, minLovelace, n);
    SumPermutation(listing, eligible + left, Lovelace());
    SumAppend(eligible, left, Lovelace());
    SweepsOnlyClean(listing, listing, minLovelace, cap);
  }

  /** Dust and tokens never block the sweep: one clean deposit suffices exactly with a cap of at least one. */
  lemma NeverBlockedExactlyWhenCapped(minLovelace: int, cap: int)
    ensures cap >= 1
       <==> forall s :: Clean(s, minLovelace) != [] ==> Select(s, minLovelace, cap) != []
  {
    if cap < 1 {
      var d := Deposit(OutRef("", 0), minLovelace, [], false);
      SingleClean(d, minLovelace);
      assert Select([d], minLovelace, cap) == [];
    }
  }

  /** A deposit that carries a datum is swept like any other. */
  lemma DatumIsNotChecked(d: Deposit, minLovelace: int, cap: int)
    requires IsCleanAdaDeposit(d, minLovelace) && d.hasDatum && cap >= 1
    ensures Select([d], minLovelace, cap) == [d]
  {
    SingleClean(d, minLovelace);
  }

  /** How many of `n` clean deposits the slice takes. */
  function Taken(n: nat, cap: int): (k: nat)
    ensures k <= n
  {
    if cap >= 0 then Min(cap, n) else Max(0, n + cap)
  }

  lemma {:induction false} CleanAppend(s: seq<Deposit>, t: seq<Deposit>, minLovelace: int)
    ensures Clean(s + t, minLovelace) == Clean(s, minLovelace) + Clean(t, minLovelace)
  {
    if s == [] {
      assert s + t == t;
    } else {
      assert (s + t)[1..] == s[1..] + t;
      CleanAppend(s[1..], t, minLovelace);
    }
  }

  /** A clean deposit keeps its rank: as many clean ones precede it in the selection order as in the listing. */
  lemma CleanRank(s: seq<Deposit>, i: nat, minLovelace: int)
    requires i < |s| && IsCleanAdaDeposit(s[i], minLovelace)
    ensures var rank := |Clean(s[..i], minLovelace)|;
      rank < |Clean(s, minLovelace)| && Clean(s, minLovelace)[rank] == s[i]
  {
    assert s == s[..i] + ([s[i]] + s[i + 1..]);
    CleanAppend(s[..i], [s[i]] + s[i + 1..], minLovelace);
    CleanAppend([s[i]], s[i + 1..], minLovelace);
    SingleClean(s[i], minLovelace);
  }

  lemma {:induction false} RankIsReached(s: seq<Deposit>, j: nat, minLovelace: int) returns (i: nat)
    requires j < |Clean(s, minLovelace)|
    ensures i < |s| && s[i] == Clean(s, minLovelace)[j]
    ensures IsCleanAdaDeposit(s[i], minLovelace) && |Clean(s[..i], minLovelace)| == j
  {
    if IsCleanAdaDeposit(s[0], minLovelace) && j == 0 {
      i := 0;
      assert s[..0] == [];
    } else {
      i := RankIsReached(s[1..], if IsCleanAdaDeposit(s[0], minLovelace) then j - 1 else j, minLovelace);
      assert s[..i + 1][1..] == s[1..][..i];
      i := i + 1;
    }
  }

  /**
    The comments promise that deposits with a datum stay put. For a listing this is so exactly when each of them is
    dust, carries tokens, or comes after as many clean deposits as the cap lets through.
   */
  lemma DatumsStayExactlyWhenNotReached(s: seq<Deposit>, minLovelace: int, cap: int)
    ensures (forall d :: d in Select(s, minLovelace, cap) ==> !d.hasDatum)
       <==> forall i: nat :: i < |s| && s[i].hasDatum && IsCleanAdaDeposit(s[i], minLovelace) ==>
              |Clean(s[..i], minLovelace)| >= Taken(|Clean(s, minLovelace)|, cap)
  {
    var selected, clean := Select(s, minLovelace, cap), Clean(s, minLovelace);
    assert |selected| == Taken(|clean|, cap) && selected == clean[..|selected|];
    forall i: nat | i < |s| && s[i].hasDatum && IsCleanAdaDeposit(s[i], minLovelace)
      ensures |Clean(s[..i], minLovelace)| < |selected| ==> s[i] in selected
    {
      CleanRank(s, i, minLovelace);
    }
    forall d | d in selected && d.hasDatum
      ensures exists i: nat :: i < |s| && s[i].hasDatum && IsCleanAdaDeposit(s[i], minLovelace)
                               && |Clean(s[..i], minLovelace)| < |selected|
    {
      var j: nat :| j < |selected| && selected[j] == d;
      var i := RankIsReached(s, j, minLovelace);
      assert s[i] == d;
    }
  }

  /** No cap but zero keeps the promise for every listing. */
  lemma DatumsAlwaysStayExactlyForZeroCap(minLovelace: int, cap: int)
    ensures (forall s, d :: d in Select(s, minLovelace, cap) ==> !d.hasDatum) <==> cap == 0
  {
    if cap != 0 {
      var d := Deposit(OutRef("", 0), minLovelace, [], true);
      var s := Copies(d, 1 + if cap > 0 then 0 else -cap);
      CleanCopies(d, |s|, minLovelace);
      assert Select(s, minLovelace, cap)[0] == d;
      assert d in Select(s, minLovelace, cap);
    }
  }

  lemma {:induction false} CleanCopies(d: Deposit, n: nat, minLovelace: int)
    requires IsCleanAdaDeposit(d, minLovelace)
    ensures Clean(Copies(d, n), minLovelace) == Copies(d, n)
  {
    if n > 0 {
      assert Copies(d, n) == [d] + Copies(d, n - 1) && Copies(d, n)[1..] == Copies(d, n - 1);
      CleanCopies(d, n - 1, minLovelace);
    }
  }

  lemma SingleClean(d: Deposit, minLovelace: int)
    requires IsCleanAdaDeposit(d, minLovelace)
    ensures Clean([d], minLovelace) == [d]
  {
    var none: seq<Deposit> := [];
    assert [d][1..] == none && Clean(none, minLovelace) == [];
  }

  // ----- repeated merges

  /** Merges one after another; before each the provider lists the address in an order of its own. */
  ghost predicate MergeRun(start: seq<Deposit>, listings: seq<seq<Deposit>>, minLovelace: int, cap: int)
    decreases |listings|
  {
    listings != [] ==>
      && multiset(listings[0]) == multiset(start)
      && Merge(0, listings[0], minLovelace, cap).Ok?
      && MergeRun(Merge(0, listings[0], minLovelace, cap).value.left, listings[1..], minLovelace, cap)
  }

  function RunCredit(listings: seq<seq<Deposit>>, minLovelace: int, cap: int): int {
    if listings == [] then 0
    else TotalOf(Select(listings[0], minLovelace, cap)) + RunCredit(listings[1..], minLovelace, cap)
  }

  function RunEnd(start: seq<Deposit>, listings: seq<seq<Deposit>>, minLovelace: int, cap: int): seq<Deposit>
    decreases |listings|
  {
    if listings == [] then start
    else
      var left := Leftover(listings[0], minLovelace, |Select(listings[0], minLovelace, cap)|);
      RunEnd(left, listings[1..], minLovelace, cap)
  }

  lemma OneMerge(start: seq<Deposit>, listing: seq<Deposit>, minLovelace: int, cap: int)
    requires 1 <= cap && multiset(listing) == multiset(start) && Merge(0, listing, minLovelace, cap).Ok?
    ensures var left, k := Merge(0, listing, minLovelace, cap).value.left, |Clean(start, minLovelace)|;
      && 0 < k && |Clean(left, minLovelace)| == Max(0, k - cap)
      && TotalOf(Select(listing, minLovelace, cap)) + TotalOf(Clean(left, minLovelace))
         == TotalOf(Clean(start, minLovelace))
      && multiset(Junk(left, minLovelace)) == multiset(Junk(start, minLovelace))
  {
    FilterPermutes(listing, start, minLovelace, true);
    FilterPermutes(listing, start, minLovelace, false);
    LeftoverFacts(listing, minLovelace, |Select(listing, minLovelace, cap)|);
    MergeIsExact(0, listing, minLovelace, cap);
  }

  /** Where a run stands after its merges: the clean deposits it took, the ones it left, and the junk. */
  lemma {:induction false} RunProgress(start: seq<Deposit>, listings: seq<seq<Deposit>>, minLovelace: int, cap: int)
    requires 1 <= cap && MergeRun(start, listings, minLovelace, cap)
    ensures var end, k := RunEnd(start, listings, minLovelace, cap), |Clean(start, minLovelace)|;
      && |Clean(end, minLovelace)| == Max(0, k - |listings| * cap)
      && (listings != [] ==> (|listings| - 1) * cap < k)
      && RunCredit(listings, minLovelace, cap) + TotalOf(Clean(end, minLovelace)) == TotalOf(Clean(start, minLovelace))
      && multiset(Junk(end, minLovelace)) == multiset(Junk(start, minLovelace))
    decreases |listings|
  {
    if listings != [] {
      var left := Merge(0, listings[0], minLovelace, cap).value.left;
      OneMerge(start, listings[0], minLovelace, cap);
      RunProgress(left, listings[1..], minLovelace, cap);
      CountDown(|Clean(start, minLovelace)|, |Clean(left, minLovelace)|, |listings|, cap);
    }
  }

  lemma CountDown(k: int, k': int, n: int, cap: int)
    requires 1 <= cap && 1 <= n && 0 < k && k' == Max(0, k - cap)
    ensures Max(0, k' - (n - 1) * cap) == Max(0, k - n * cap)
    ensures n == 1 || (n - 2) * cap < k' ==> (n - 1) * cap < k
  {
    assert n * cap == (n - 1) * cap + cap && (n - 1) * cap == (n - 2) * cap + cap;
    MulMonotone(0, n - 1, cap);
  }

  lemma Ceiling(k: int, n: int, cap: int)
    requires 1 <= cap && 0 <= n && 0 <= k <= n * cap && (n == 0 || (n - 1) * cap < k)
    ensures n == (k + cap - 1) / cap
  {
    if n == 0 {
      DivUnique(k + cap - 1, cap, 0, cap - 1);
    } else {
      assert n * cap == (n - 1) * cap + cap == cap * n;
      DivUnique(k + cap - 1, cap, n, k + cap - 1 - cap * n);
    }
  }

  /** Draining k clean deposits takes exactly k/cap merges, rounded up, in whatever order they are listed. */
  lemma DrainTakesCeiling(start: seq<Deposit>, listings: seq<seq<Deposit>>, minLovelace: int, cap: int)
    requires 1 <= cap && MergeRun(start, listings, minLovelace, cap)
    requires Clean(RunEnd(start, listings, minLovelace, cap), minLovelace) == []
    ensures |listings| == (|Clean(start, minLovelace)| + cap - 1) / cap
    ensures RunCredit(listings, minLovelace, cap) == TotalOf(Clean(start, minLovelace))
    ensures multiset(RunEnd(start, listings, minLovelace, cap)) == multiset(Junk(start, minLovelace))
  {
    var k, n := |Clean(start, minLovelace)|, |listings|;
    var end := RunEnd(start, listings, minLovelace, cap);
    RunProgress(start, listings, minLovelace, cap);
    Ceiling(k, n, cap);
    forall d: Deposit
      ensures multiset(end)[d] == multiset(Junk(start, minLovelace))[d]
    {
      FilterCounts(end, minLovelace, true, d);
      FilterCounts(end, minLovelace, false, d);
    }
  }
}

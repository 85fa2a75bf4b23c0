/** The planner that shapes a wallet into lanes and collateral (wallet/split-plan.ts). */
module WalletShape {
  import opened Prelude
  import opened Folds

  datatype Utxo = Utxo(outRef: OutRef, lovelace: int, hasOnlyAda: bool)

  datatype Profile = Profile(
    workingCount: int,
    workingLovelace: int,
    collateralCount: int,
    collateralLovelace: int,
    feeBufferLovelace: int)

  datatype Plan =
    | Act(consumeOutRefs: seq<OutRef>, outputLovelaces: seq<int>)
    | AlreadyShaped
    | Insufficient

  /** Sizes for which the two kinds of piece are distinct and the buffer is real. */
  predicate Sensible(p: Profile) {
    0 < p.collateralLovelace < p.workingLovelace && 0 < p.feeBufferLovelace
  }

  // ----- statistics of the pure-ADA part of a wallet

  function PureWeight(g: int -> int): Utxo -> int {
    (u: Utxo) => if u.hasOnlyAda then g(u.lovelace) else 0
  }

  /** The sum of `g` over the sizes of the pure-ADA UTxOs. */
  function PureSum(w: seq<Utxo>, g: int -> int): int {
    Sum(w, PureWeight(g))
  }

  function AtLeast(bound: int): int -> int {
    x => if x >= bound then 1 else 0
  }

  function Between(low: int, high: int): int -> int {
    x => if x >= low && x < high then 1 else 0
  }

  function Size(): int -> int {
    x => x
  }

  function Square(): int -> int {
    x => x * x
  }

  function Lanes(w: seq<Utxo>, p: Profile): int {
    PureSum(w, AtLeast(p.workingLovelace))
  }

  function Collaterals(w: seq<Utxo>, p: Profile): int {
    PureSum(w, Between(p.collateralLovelace, p.workingLovelace))
  }

  function Total(values: seq<int>): int {
    Sum(values, Size())
  }

  // ----- planShapeOutputs

  /** How many pieces of one size a minting loop pushes: each push must leave the buffer. */
  function Minted(missing: int, size: int, remaining: int, buffer: int): nat
    decreases Max(0, missing)
  {
    if missing > 0 && remaining - size >= buffer
    then 1 + Minted(missing - 1, size, remaining - size, buffer)
    else 0
  }

  function Missing(target: int, have: int): int {
    Max(0, target - have)
  }

  function WorkingPieces(existing: seq<Utxo>, p: Profile, available: int): nat {
    Minted(Missing(p.workingCount, Lanes(existing, p)), p.workingLovelace, available, p.feeBufferLovelace)
  }

  function AfterLanes(existing: seq<Utxo>, p: Profile, available: int): int {
    available - WorkingPieces(existing, p, available) * p.workingLovelace
  }

  predicate LanesFull(existing: seq<Utxo>, p: Profile, available: int) {
    Lanes(existing, p) + WorkingPieces(existing, p, available) >= p.workingCount
  }

  function CollateralPieces(existing: seq<Utxo>, p: Profile, available: int): nat {
    if LanesFull(existing, p, available)
    then Minted(Missing(p.collateralCount, Collaterals(existing, p)), p.collateralLovelace,
                AfterLanes(existing, p, available), p.feeBufferLovelace)
    else 0
  }

  function Leftover(existing: seq<Utxo>, p: Profile, available: int): int {
    AfterLanes(existing, p, available) - CollateralPieces(existing, p, available) * p.collateralLovelace
  }

  function ShapeOutputs(existing: seq<Utxo>, p: Profile, available: int, absorbRemainder: bool): seq<int> {
    Copies(p.workingLovelace, WorkingPieces(existing, p, available))
    + Copies(p.collateralLovelace, CollateralPieces(existing, p, available))
    + if absorbRemainder && Leftover(existing, p, available) >= p.feeBufferLovelace
      then [Leftover(existing, p, available)]
      else []
  }

  lemma OneMorePiece(n: nat, size: int)
    ensures Copies(size, n) + [size] == Copies(size, n + 1)
    ensures (n + 1) * size == n * size + size
  {
  }

  /** What a minting loop leaves. */
  function Unminted(missing: int, size: int, remaining: int, buffer: int): int
    decreases Max(0, missing)
  {
    if missing > 0 && remaining - size >= buffer
    then Unminted(missing - 1, size, remaining - size, buffer)
    else remaining
  }

  lemma {:induction false} UnmintedIsRest(missing: int, size: int, remaining: int, buffer: int)
    ensures Unminted(missing, size, remaining, buffer)
         == remaining - Minted(missing, size, remaining, buffer) * size
    decreases Max(0, missing)
  {
    if missing > 0 && remaining - size >= buffer {
      UnmintedIsRest(missing - 1, size, remaining - size, buffer);
      OneMorePiece(Minted(missing - 1, size, remaining - size, buffer), size);
    }
  }

  lemma OneMoreAfter(front: seq<int>, n: nat, size: int)
    ensures front + Copies(size, n) + [size] == front + Copies(size, n + 1)
  {
    OneMorePiece(n, size);
  }

  /** The loop over the lanes. */
  method MintLanes(missing: int, available: int, p: Profile) returns (outputs: seq<int>, minted: nat, remaining: int)
    requires 0 <= missing
    ensures minted == Minted(missing, p.workingLovelace, available, p.feeBufferLovelace)
    ensures outputs == Copies(p.workingLovelace, minted)
    ensures remaining == Unminted(missing, p.workingLovelace, available, p.feeBufferLovelace)
  {
    outputs, minted, remaining := [], 0, available;
    while minted < missing && remaining - p.workingLovelace >= p.feeBufferLovelace
      invariant minted <= missing
      invariant outputs == Copies(p.workingLovelace, minted)
      invariant Minted(missing, p.workingLovelace, available, p.feeBufferLovelace)
             == minted + Minted(missing - minted, p.workingLovelace, remaining, p.feeBufferLovelace)
      invariant Unminted(missing, p.workingLovelace, available, p.feeBufferLovelace)
             == Unminted(missing - minted, p.workingLovelace, remaining, p.feeBufferLovelace)
    {
      OneMorePiece(minted, p.workingLovelace);
      outputs := outputs + [p.workingLovelace];
      remaining := remaining - p.workingLovelace;
      minted := minted + 1;
    }
  }

  /** The loop over the collateral, behind the lanes. */
  method MintCollateral(lanes: seq<int>, missing: int, available: int, p: Profile)
    returns (outputs: seq<int>, remaining: int)
    requires 0 <= missing
    ensures outputs == lanes + Copies(p.collateralLovelace,
                                      Minted(missing, p.collateralLovelace, available, p.feeBufferLovelace))
    ensures remaining == Unminted(missing, p.collateralLovelace, available, p.feeBufferLovelace)
  {
    var minted := 0;
    outputs, remaining := lanes, available;
    while minted < missing && remaining - p.collateralLovelace >= p.feeBufferLovelace
      invariant 0 <= minted <= missing
      invariant outputs == lanes + Copies(p.collateralLovelace, minted)
      invariant Minted(missing, p.collateralLovelace, available, p.feeBufferLovelace)
             == minted + Minted(missing - minted, p.collateralLovelace, remaining, p.feeBufferLovelace)
      invariant Unminted(missing, p.collateralLovelace, available, p.feeBufferLovelace)
             == Unminted(missing - minted, p.collateralLovelace, remaining, p.feeBufferLovelace)
    {
      OneMoreAfter(lanes, minted, p.collateralLovelace);
      outputs := outputs + [p.collateralLovelace];
      remaining := remaining - p.collateralLovelace;
      minted := minted + 1;
    }
  }

  method PlanShapeOutputs(existing: seq<Utxo>, p: Profile, available: int, absorbRemainder: bool)
    returns (outputs: seq<int>)
    ensures outputs == ShapeOutputs(existing, p, available, absorbRemainder)
  {
    var haveWorking := Lanes(existing, p);
    var haveCollateral := Collaterals(existing, p);
    var missingWorking := Max(0, p.workingCount - haveWorking);
    var missingCollateral := Max(0, p.collateralCount - haveCollateral);

    var mintedWorking, remaining;
    outputs, mintedWorking, remaining := MintLanes(missingWorking, available, p);
    UnmintedIsRest(missingWorking, p.workingLovelace, available, p.feeBufferLovelace);
    assert remaining == AfterLanes(existing, p, available);

    var lanesFull := haveWorking + mintedWorking >= p.workingCount;
    if lanesFull {
      UnmintedIsRest(missingCollateral, p.collateralLovelace, remaining, p.feeBufferLovelace);
      outputs, remaining := MintCollateral(outputs, missingCollateral, remaining, p);
    }
    assert remaining == Leftover(existing, p, available);
    if absorbRemainder && remaining >= p.feeBufferLovelace {
      outputs := outputs + [remaining];
    }
  }

  lemma DivStep(a: int, size: int)
    requires 0 < size
    ensures (a + size) / size == a / size + 1
  {
    var q, r := a / size, a % size;
    assert a + size == size * (q + 1) + r;
    DivUnique(a + size, size, q + 1, r);
  }

  /** The loop count in closed form: as many pieces as are missing or as the amount above the buffer holds. */
  lemma {:induction false} MintedClosedForm(missing: int, size: int, remaining: int, buffer: int)
    requires 0 < size && buffer <= remaining
    ensures Minted(missing, size, remaining, buffer) == Min(Max(0, missing), (remaining - buffer) / size)
    decreases Max(0, missing)
  {
    if missing > 0 && remaining - size >= buffer {
      MintedClosedForm(missing - 1, size, remaining - size, buffer);
      DivStep(remaining - size - buffer, size);
    } else if missing > 0 {
      assert (remaining - buffer) / size == 0;
    }
  }

  /** What stopped a minting loop, and what it left behind. */
  lemma {:induction false} MintedStops(missing: int, size: int, remaining: int, buffer: int)
    ensures var n := Minted(missing, size, remaining, buffer);
      && n <= Max(0, missing)
      && (n == Max(0, missing) || remaining - n * size - size < buffer)
      && (n > 0 ==> remaining - n * size >= buffer)
    decreases Max(0, missing)
  {
    if missing > 0 && remaining - size >= buffer {
      MintedStops(missing - 1, size, remaining - size, buffer);
      var n := Minted(missing - 1, size, remaining - size, buffer);
      assert (n + 1) * size == n * size + size;
    }
  }

  lemma PieceBounds(existing: seq<Utxo>, p: Profile, available: int)
    ensures var mw, mc := WorkingPieces(existing, p, available), CollateralPieces(existing, p, available);
      var rest := Leftover(existing, p, available);
      && mw <= Missing(p.workingCount, Lanes(existing, p))
      && (LanesFull(existing, p, available)
          || AfterLanes(existing, p, available) < p.workingLovelace + p.feeBufferLovelace)
      && (!LanesFull(existing, p, available) ==> mc == 0)
      && (mw == 0 ==> AfterLanes(existing, p, available) == available)
      && (mc == 0 ==> rest == AfterLanes(existing, p, available))
      && mc <= Missing(p.collateralCount, Collaterals(existing, p))
      && (LanesFull(existing, p, available) ==>
            mc == Missing(p.collateralCount, Collaterals(existing, p))
            || rest < p.collateralLovelace + p.feeBufferLovelace)
      && (mw > 0 || mc > 0 ==> rest >= p.feeBufferLovelace)
      && (available >= p.feeBufferLovelace ==> rest >= p.feeBufferLovelace)
      && mw * p.workingLovelace + mc * p.collateralLovelace + rest == available
  {
    MintedStops(Missing(p.workingCount, Lanes(existing, p)), p.workingLovelace, available, p.feeBufferLovelace);
    MintedStops(Missing(p.collateralCount, Collaterals(existing, p)), p.collateralLovelace,
                AfterLanes(existing, p, available), p.feeBufferLovelace);
  }

  // ----- the counts and the pieces, without the loops

  /** What the planner counts as lanes and as collateral: only UTxOs that hold nothing but ADA. */
  lemma CountsArePositions(w: seq<Utxo>, p: Profile)
    ensures Lanes(w, p) == |set i: nat | i < |w| && w[i].hasOnlyAda && p.workingLovelace <= w[i].lovelace|
    ensures Collaterals(w, p)
         == |set i: nat | i < |w| && w[i].hasOnlyAda && p.collateralLovelace <= w[i].lovelace < p.workingLovelace|
  {
    LanesArePositions(w, p);
    CollateralsArePositions(w, p);
  }

  lemma {:induction false} LanesArePositions(w: seq<Utxo>, p: Profile)
    ensures Lanes(w, p) == |set i: nat | i < |w| && w[i].hasOnlyAda && p.workingLovelace <= w[i].lovelace|
  {
    if w != [] {
      LanesArePositions(w[1..], p);
      OnePositionMore(set i: nat | i < |w[1..]| && w[1..][i].hasOnlyAda && p.workingLovelace <= w[1..][i].lovelace,
                      set i: nat | i < |w| && w[i].hasOnlyAda && p.workingLovelace <= w[i].lovelace);
    }
  }

  lemma {:induction false} CollateralsArePositions(w: seq<Utxo>, p: Profile)
    ensures Collaterals(w, p)
         == |set i: nat | i < |w| && w[i].hasOnlyAda && p.collateralLovelace <= w[i].lovelace < p.workingLovelace|
  {
    if w != [] {
      var c, l, v := p.collateralLovelace, p.workingLovelace, w[1..];
      CollateralsArePositions(v, p);
      OnePositionMore(set i: nat | i < |v| && v[i].hasOnlyAda && c <= v[i].lovelace < l,
                      set i: nat | i < |w| && w[i].hasOnlyAda && c <= w[i].lovelace < l);
    }
  }

  /** How many pieces of one size fit above the buffer, if that many are missing. */
  function Fitting(missing: int, size: int, available: int, buffer: int): int
    requires 0 < size
  {
    if available < buffer then 0 else Min(Max(0, missing), (available - buffer) / size)
  }

  /**
    The pieces in closed form, from the numbers of lanes and collateral UTxOs that hold only ADA: lanes first,
    collateral once the profile's lanes are there, and what is left as one more piece if it is to be absorbed and
    reaches the buffer.
   */
  lemma PiecesInClosedForm(existing: seq<Utxo>, p: Profile, available: int, absorbRemainder: bool)
    requires Sensible(p)
    ensures var lanes := |set i: nat | i < |existing| && existing[i].hasOnlyAda
                                       && p.workingLovelace <= existing[i].lovelace|;
      var collaterals := |set i: nat | i < |existing| && existing[i].hasOnlyAda
                                       && p.collateralLovelace <= existing[i].lovelace < p.workingLovelace|;
      var mw := Fitting(p.workingCount - lanes, p.workingLovelace, available, p.feeBufferLovelace);
      var rest := available - mw * p.workingLovelace;
      var mc := if lanes + mw < p.workingCount then 0
                else Fitting(p.collateralCount - collaterals, p.collateralLovelace, rest, p.feeBufferLovelace);
      var remainder := rest - mc * p.collateralLovelace;
      && mw >= 0 && mc >= 0
      && ShapeOutputs(existing, p, available, absorbRemainder)
         == Copies(p.workingLovelace, mw) + Copies(p.collateralLovelace, mc)
            + if absorbRemainder && remainder >= p.feeBufferLovelace then [remainder] else []
  {
    CountsArePositions(existing, p);
    MintedFits(p.workingCount - Lanes(existing, p), p.workingLovelace, available, p.feeBufferLovelace);
    MintedFits(p.collateralCount - Collaterals(existing, p), p.collateralLovelace,
               AfterLanes(existing, p, available), p.feeBufferLovelace);
  }

  lemma MintedFits(missing: int, size: int, available: int, buffer: int)
    requires 0 < size
    ensures Minted(Max(0, missing), size, available, buffer) == Fitting(missing, size, available, buffer)
  {
    if available >= buffer {
      MintedClosedForm(Max(0, missing), size, available, buffer);
    }
  }

  // ----- planWalletSplit

  predicate IsLargestPure(w: seq<Utxo>, i: nat) {
    i < |w| && w[i].hasOnlyAda && forall k :: 0 <= k < |w| && w[k].hasOnlyAda ==> w[k].lovelace <= w[i].lovelace
  }

  predicate NoPure(w: seq<Utxo>) {
    forall k :: 0 <= k < |w| ==> !w[k].hasOnlyAda
  }

  /** The decision once the source has been chosen. Token UTxOs in the rest weigh nothing. */
  function PlanFrom(w: seq<Utxo>, i: nat, p: Profile): Plan
    requires IsLargestPure(w, i)
  {
    if w[i].lovelace - p.feeBufferLovelace <= 0 then Insufficient
    else
      var outputs := ShapeOutputs(RemoveAt(w, i), p, w[i].lovelace, false);
      if outputs == [] then
        if Lanes(w, p) >= p.workingCount then AlreadyShaped else Insufficient
      else
        Act([w[i].outRef], outputs)
  }

  /** The source's comparator never answers "equal", so which of several largest comes first is left open. */
  ghost predicate IsPlan(w: seq<Utxo>, p: Profile, plan: Plan) {
    if NoPure(w) then plan == AlreadyShaped
    else exists i :: IsLargestPure(w, i) && plan == PlanFrom(w, i, p)
  }

  method PlanWalletSplit(w: seq<Utxo>, p: Profile) returns (plan: Plan)
    ensures IsPlan(w, p, plan)
  {
    var source: int := -1;
    for k := 0 to |w|
      invariant -1 <= source < k
      invariant source == -1 ==> forall j :: 0 <= j < k ==> !w[j].hasOnlyAda
      invariant source >= 0 ==> w[source].hasOnlyAda
      invariant source >= 0 ==> forall j :: 0 <= j < k && w[j].hasOnlyAda ==> w[j].lovelace <= w[source].lovelace
    {
      if w[k].hasOnlyAda && (source == -1 || w[k].lovelace > w[source].lovelace) {
        source := k;
      }
    }
    if source == -1 {
      return AlreadyShaped;
    }
    assert IsLargestPure(w, source);
    var available := w[source].lovelace - p.feeBufferLovelace;
    if available <= 0 {
      return Insufficient;
    }
    var outputs := PlanShapeOutputs(RemoveAt(w, source), p, w[source].lovelace, false);
    if outputs == [] {
      return if Lanes(w, p) >= p.workingCount then AlreadyShaped else Insufficient;
    }
    return Act([w[source].outRef], outputs);
  }

  lemma StatsWithoutSource(w: seq<Utxo>, i: nat, p: Profile)
    requires IsLargestPure(w, i)
    ensures Lanes(w, p) == Lanes(RemoveAt(w, i), p) + AtLeast(p.workingLovelace)(w[i].lovelace)
    ensures Collaterals(w, p)
         == Collaterals(RemoveAt(w, i), p) + Between(p.collateralLovelace, p.workingLovelace)(w[i].lovelace)
  {
    SumRemoveAt(w, i, PureWeight(AtLeast(p.workingLovelace)));
    SumRemoveAt(w, i, PureWeight(Between(p.collateralLovelace, p.workingLovelace)));
  }

  /** Ties do not matter: every largest source leads to the same pieces and the same reason. */
  lemma PlanIgnoresTies(w: seq<Utxo>, i: nat, j: nat, p: Profile)
    requires IsLargestPure(w, i) && IsLargestPure(w, j)
    ensures PlanFrom(w, i, p).Act? == PlanFrom(w, j, p).Act?
    ensures PlanFrom(w, i, p).Act? ==> PlanFrom(w, i, p).outputLovelaces == PlanFrom(w, j, p).outputLovelaces
    ensures !PlanFrom(w, i, p).Act? ==> PlanFrom(w, i, p) == PlanFrom(w, j, p)
  {
    StatsWithoutSource(w, i, p);
    StatsWithoutSource(w, j, p);
  }

  lemma TokenWeighsNothing(a: seq<Utxo>, t: Utxo, b: seq<Utxo>, p: Profile)
    requires !t.hasOnlyAda
    ensures Lanes(a + [t] + b, p) == Lanes(a + b, p) && Collaterals(a + [t] + b, p) == Collaterals(a + b, p)
  {
    var w := a + [t] + b;
    assert RemoveAt(w, |a|) == a + b;
    SumRemoveAt(w, |a|, PureWeight(AtLeast(p.workingLovelace)));
    SumRemoveAt(w, |a|, PureWeight(Between(p.collateralLovelace, p.workingLovelace)));
  }

  lemma TokenInFunding(a: seq<Utxo>, t: Utxo, b: seq<Utxo>, p: Profile)
    requires !t.hasOnlyAda
    ensures forall available: int, absorb: bool ::
              ShapeOutputs(a + [t] + b, p, available, absorb) == ShapeOutputs(a + b, p, available, absorb)
  {
    TokenWeighsNothing(a, t, b, p);
  }

  lemma SourceWithoutToken(a: seq<Utxo>, t: Utxo, b: seq<Utxo>, i: nat)
    requires !t.hasOnlyAda && IsLargestPure(a + [t] + b, i)
    ensures i != |a| && IsLargestPure(a + b, if i < |a| then i else i - 1)
  {
    var w, v := a + [t] + b, a + b;
    assert forall k :: 0 <= k < |v| ==> v[k] == w[if k < |a| then k else k + 1];
  }

  lemma SourceWithToken(a: seq<Utxo>, t: Utxo, b: seq<Utxo>, j: nat)
    requires !t.hasOnlyAda && IsLargestPure(a + b, j)
    ensures IsLargestPure(a + [t] + b, if j < |a| then j else j + 1)
  {
    var w, v := a + [t] + b, a + b;
    assert forall k :: 0 <= k < |w| && k != |a| ==> w[k] == v[if k < |a| then k else k - 1];
  }

  lemma SameSource(a: seq<Utxo>, t: Utxo, b: seq<Utxo>, i: nat, p: Profile)
    requires !t.hasOnlyAda && IsLargestPure(a + [t] + b, i)
    ensures var j := if i < |a| then i else i - 1;
      i != |a| && IsLargestPure(a + b, j) && PlanFrom(a + [t] + b, i, p) == PlanFrom(a + b, j, p)
  {
    SourceWithoutToken(a, t, b, i);
    TokenWeighsNothing(a, t, b, p);
    StatsWithoutSource(a + [t] + b, i, p);
    StatsWithoutSource(a + b, if i < |a| then i else i - 1, p);
  }

  lemma NoPureWithToken(a: seq<Utxo>, t: Utxo, b: seq<Utxo>)
    requires !t.hasOnlyAda
    ensures NoPure(a + [t] + b) <==> NoPure(a + b)
  {
    var w, v := a + [t] + b, a + b;
    if NoPure(w) {
      assert forall k :: 0 <= k < |v| ==> v[k] == w[if k < |a| then k else k + 1];
    }
    if NoPure(v) {
      assert forall k :: 0 <= k < |w| && k != |a| ==> w[k] == v[if k < |a| then k else k - 1];
    }
  }

  /** A token-bearing UTxO anywhere in the listing changes neither the pieces of a funding nor the decision to split. */
  lemma TokensDoNotMatter(a: seq<Utxo>, t: Utxo, b: seq<Utxo>, p: Profile, plan: Plan)
    requires !t.hasOnlyAda
    ensures forall available: int, absorb: bool ::
              ShapeOutputs(a + [t] + b, p, available, absorb) == ShapeOutputs(a + b, p, available, absorb)
    ensures IsPlan(a + [t] + b, p, plan) <==> IsPlan(a + b, p, plan)
  {
    hide PlanFrom, ShapeOutputs, IsLargestPure, NoPure;
    TokenInFunding(a, t, b, p);
    NoPureWithToken(a, t, b);
    if i: nat :| IsLargestPure(a + [t] + b, i) && plan == PlanFrom(a + [t] + b, i, p) {
      SameSource(a, t, b, i, p);
    }
    if j: nat :| IsLargestPure(a + b, j) && plan == PlanFrom(a + b, j, p) {
      SourceWithToken(a, t, b, j);
      SameSource(a, t, b, if j < |a| then j else j + 1, p);
    }
  }

  lemma {:induction false} StatsNonNegative(w: seq<Utxo>, p: Profile)
    ensures 0 <= Lanes(w, p) && 0 <= Collaterals(w, p)
  {
    if w != [] {
      StatsNonNegative(w[1..], p);
    }
  }

  /** A wallet whose largest pure UTxO is not a lane has no lane at all. */
  lemma {:induction false} NoLaneBelow(w: seq<Utxo>, p: Profile)
    requires forall k :: 0 <= k < |w| && w[k].hasOnlyAda ==> w[k].lovelace < p.workingLovelace
    ensures Lanes(w, p) == 0
  {
    if w != [] {
      NoLaneBelow(w[1..], p);
    }
  }

  /** Whether a largest UTxO of size `l` gets split, from the statistics of the whole wallet. */
  predicate ShouldSplit(p: Profile, lanes: int, collaterals: int, l: int) {
    var lanesBeside := lanes - AtLeast(p.workingLovelace)(l);
    var collateralsBeside := collaterals - Between(p.collateralLovelace, p.workingLovelace)(l);
    || (lanesBeside < p.workingCount && l >= p.workingLovelace + p.feeBufferLovelace)
    || (lanesBeside >= p.workingCount && collateralsBeside < p.collateralCount
        && l >= p.collateralLovelace + p.feeBufferLovelace)
  }

  lemma ActsExactlyWhen(w: seq<Utxo>, i: nat, p: Profile)
    requires Sensible(p) && IsLargestPure(w, i)
    ensures PlanFrom(w, i, p).Act? <==> ShouldSplit(p, Lanes(w, p), Collaterals(w, p), w[i].lovelace)
  {
    var rest, l := RemoveAt(w, i), w[i].lovelace;
    StatsWithoutSource(w, i, p);
    PieceBounds(rest, p, l);
    var outputs := ShapeOutputs(rest, p, l, false);
    assert |outputs| == WorkingPieces(rest, p, l) + CollateralPieces(rest, p, l);
  }

  /**
    What a stopped wallet looks like. `already_shaped` is reported exactly when the lanes are there and the
    largest UTxO exceeds the buffer; with few lanes nothing big is left; with spare lanes collateral is complete.
   */
  lemma StoppedShape(w: seq<Utxo>, i: nat, p: Profile)
    requires Sensible(p) && IsLargestPure(w, i) && !PlanFrom(w, i, p).Act?
    ensures PlanFrom(w, i, p) == AlreadyShaped
       <==> Lanes(w, p) >= p.workingCount && w[i].lovelace > p.feeBufferLovelace
    ensures p.workingCount >= 1 && p.feeBufferLovelace < p.workingLovelace ==>
              (PlanFrom(w, i, p) == AlreadyShaped <==> Lanes(w, p) >= p.workingCount)
    ensures Lanes(w, p) <= p.workingCount ==>
              forall k :: 0 <= k < |w| && w[k].hasOnlyAda ==> w[k].lovelace < p.workingLovelace + p.feeBufferLovelace
    ensures Lanes(w, p) > p.workingCount >= 0 && p.workingLovelace >= p.collateralLovelace + p.feeBufferLovelace ==>
              Collaterals(w, p) >= p.collateralCount
  {
    ActsExactlyWhen(w, i, p);
    if w[i].lovelace < p.workingLovelace {
      NoLaneBelow(w, p);
    }
  }
}

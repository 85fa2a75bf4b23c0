/** Plans carried out: the split and funding transactions, and what repeated splitting does to a wallet. */
module WalletDynamics {
  import opened Prelude
  import opened Folds
  import opened WalletShape

  // ----- the transactions (transactions/split-wallet.ts, transactions/fund-pool-wallet.ts)

  datatype SplitError = NoInputs | NoOutputs | NonPositiveOutput | InputNotLive | CannotBalance

  /** The outputs a transaction creates, at consecutive indices. */
  function Produced(values: seq<int>, txHash: string): (w: seq<Utxo>)
    ensures |w| == |values|
  {
    seq(|values|, k requires 0 <= k < |values| => Utxo(OutRef(txHash, k), values[k], true))
  }

  /** The UTxOs of a listing whose out-refs are (or are not) among `refs`. */
  function Select(w: seq<Utxo>, refs: seq<OutRef>, wanted: bool): seq<Utxo> {
    if w == [] then []
    else if (w[0].outRef in refs) == wanted then [w[0]] + Select(w[1..], refs, wanted)
    else Select(w[1..], refs, wanted)
  }

  function Lovelace(): Utxo -> int {
    (u: Utxo) => u.lovelace
  }

  /** Coin selection is pinned to the planned inputs; the balancer returns what is left as one change output. */
  function ExecuteSplit(w: seq<Utxo>, consume: seq<OutRef>, outputs: seq<int>, fee: int, txHash: string)
    : Result<seq<Utxo>, SplitError>
  {
    if consume == [] then Err(NoInputs)
    else if outputs == [] then Err(NoOutputs)
    else if exists k :: 0 <= k < |outputs| && outputs[k] <= 0 then Err(NonPositiveOutput)
    else
      var pinned := Select(w, consume, true);
      if |pinned| < |consume| then Err(InputNotLive)
      else
        var change := Sum(pinned, Lovelace()) - Total(outputs) - fee;
        if change <= 0 then Err(CannotBalance)
        else Ok(Select(w, consume, false) + Produced(outputs + [change], txHash))
  }

  /** A pool wallet after the main wallet has paid it the planned pieces. */
  function FundedPool(w: seq<Utxo>, p: Profile, amount: int, txHash: string): seq<Utxo> {
    w + Produced(ShapeOutputs(w, p, amount, true), txHash)
  }

  /** What the ledger guarantees of a wallet: distinct out-refs and positive sizes. */
  ghost predicate OnChain(w: seq<Utxo>) {
    && (forall i, j :: 0 <= i < j < |w| ==> w[i].outRef != w[j].outRef)
    && (forall k :: 0 <= k < |w| ==> 0 < w[k].lovelace)
  }

  ghost predicate FreshHash(w: seq<Utxo>, txHash: string) {
    forall k :: 0 <= k < |w| ==> w[k].outRef.txHash != txHash
  }

  /** The wallet that splitting the `i`-th UTxO leaves. */
  function AfterSplit(w: seq<Utxo>, i: nat, outputs: seq<int>, fee: int, txHash: string): seq<Utxo>
    requires i < |w|
  {
    RemoveAt(w, i) + Produced(outputs + [w[i].lovelace - Total(outputs) - fee], txHash)
  }

  lemma {:induction false} SelectOne(w: seq<Utxo>, i: nat)
    requires OnChain(w) && i < |w|
    ensures Select(w, [w[i].outRef], true) == [w[i]]
    ensures Select(w, [w[i].outRef], false) == RemoveAt(w, i)
    decreases |w|
  {
    var ref := [w[i].outRef];
    if i == 0 {
      SelectNone(w[1..], ref);
      assert RemoveAt(w, 0) == w[1..];
    } else {
      assert w[1..][i - 1] == w[i];
      SelectOne(w[1..], i - 1);
      assert RemoveAt(w, i) == [w[0]] + RemoveAt(w[1..], i - 1);
    }
  }

  lemma {:induction false} SelectNone(w: seq<Utxo>, refs: seq<OutRef>)
    requires forall k :: 0 <= k < |w| ==> w[k].outRef !in refs
    ensures Select(w, refs, true) == [] && Select(w, refs, false) == w
  {
    if w != [] {
      SelectNone(w[1..], refs);
      assert w == [w[0]] + w[1..];
    }
  }

  lemma PlanTotals(w: seq<Utxo>, i: nat, p: Profile)
    requires Sensible(p) && IsLargestPure(w, i) && PlanFrom(w, i, p).Act?
    ensures var outputs := PlanFrom(w, i, p).outputLovelaces;
      && (forall k :: 0 <= k < |outputs| ==> 0 < outputs[k])
      && Total(outputs) + Leftover(RemoveAt(w, i), p, w[i].lovelace) == w[i].lovelace
      && p.feeBufferLovelace <= Leftover(RemoveAt(w, i), p, w[i].lovelace)
  {
    var rest, l := RemoveAt(w, i), w[i].lovelace;
    var mw, mc := WorkingPieces(rest, p, l), CollateralPieces(rest, p, l);
    PieceBounds(rest, p, l);
    assert PlanFrom(w, i, p).outputLovelaces == Copies(p.workingLovelace, mw) + Copies(p.collateralLovelace, mc);
    SumAppend(Copies(p.workingLovelace, mw), Copies(p.collateralLovelace, mc), Size());
    SumCopies(p.workingLovelace, mw, Size());
    SumCopies(p.collateralLovelace, mc, Size());
  }

  /** A plan made from the wallet's own listing can be carried out with any fee below the buffer. */
  lemma PlanExecutes(w: seq<Utxo>, i: nat, p: Profile, fee: int, txHash: string)
    requires OnChain(w) && FreshHash(w, txHash) && Sensible(p)
    requires IsLargestPure(w, i) && PlanFrom(w, i, p).Act? && 0 <= fee < p.feeBufferLovelace
    ensures var plan := PlanFrom(w, i, p);
      var w' := AfterSplit(w, i, plan.outputLovelaces, fee, txHash);
      ExecuteSplit(w, plan.consumeOutRefs, plan.outputLovelaces, fee, txHash) == Ok(w') && OnChain(w')
  {
    var plan := PlanFrom(w, i, p);
    SelectOne(w, i);
    PlanTotals(w, i, p);
    assert Sum([w[i]], Lovelace()) == w[i].lovelace;
  }

  // ----- statistics across a split

  lemma {:induction false} SumProduced(values: seq<int>, refs: seq<Utxo>, g: int -> int)
    requires |refs| == |values|
    requires forall k :: 0 <= k < |refs| ==> refs[k].hasOnlyAda && refs[k].lovelace == values[k]
    ensures PureSum(refs, g) == Sum(values, g)
  {
    if values != [] {
      SumProduced(values[1..], refs[1..], g);
    }
  }

  /** How any statistic of the pure UTxOs changes when the `i`-th is split. */
  lemma StatAfterSplit(w: seq<Utxo>, i: nat, p: Profile, fee: int, txHash: string, g: int -> int)
    requires IsLargestPure(w, i) && PlanFrom(w, i, p).Act?
    ensures var rest, l := RemoveAt(w, i), w[i].lovelace;
      var outputs := PlanFrom(w, i, p).outputLovelaces;
      PureSum(AfterSplit(w, i, outputs, fee, txHash), g)
        == PureSum(w, g) - g(l) + WorkingPieces(rest, p, l) * g(p.workingLovelace)
           + CollateralPieces(rest, p, l) * g(p.collateralLovelace) + g(l - Total(outputs) - fee)
  {
    var rest, l := RemoveAt(w, i), w[i].lovelace;
    var mw, mc := WorkingPieces(rest, p, l), CollateralPieces(rest, p, l);
    var outputs := PlanFrom(w, i, p).outputLovelaces;
    assert outputs == Copies(p.workingLovelace, mw) + Copies(p.collateralLovelace, mc);
    var change := l - Total(outputs) - fee;
    var made := Produced(outputs + [change], txHash);
    SumRemoveAt(w, i, PureWeight(g));
    SumAppend(rest, made, PureWeight(g));
    SumProduced(outputs + [change], made, g);
    SumAppend(outputs, [change], g);
    SumAppend(Copies(p.workingLovelace, mw), Copies(p.collateralLovelace, mc), g);
    SumCopies(p.workingLovelace, mw, g);
    SumCopies(p.collateralLovelace, mc, g);
    assert Sum([change], g) == g(change);
  }

  /** Several positive parts have a smaller sum of squares than the whole. */
  lemma {:induction false} SquaresOfParts(values: seq<int>)
    requires forall k :: 0 <= k < |values| ==> 0 < values[k]
    ensures 0 <= Total(values)
    ensures Sum(values, Square()) <= Total(values) * Total(values)
    ensures |values| >= 2 ==> Sum(values, Square()) < Total(values) * Total(values)
  {
    if values != [] {
      var head, tail := values[0], Total(values[1..]);
      SquaresOfParts(values[1..]);
      assert (head + tail) * (head + tail) == head * head + 2 * (head * tail) + tail * tail;
      if |values| >= 2 {
        assert Total(values[1..]) == values[1] + Total(values[1..][1..]);
        SquaresOfParts(values[1..][1..]);
        assert 0 < head * tail;
      }
    }
  }

  lemma SquareMonotone(a: int, b: int)
    requires 0 <= a <= b
    ensures a * a <= b * b
  {
  }

  /** A split strictly lowers the sum of squared sizes, so no run of splits is endless. */
  lemma SplitLowersSquares(w: seq<Utxo>, i: nat, p: Profile, fee: int, txHash: string)
    requires Sensible(p) && IsLargestPure(w, i) && PlanFrom(w, i, p).Act? && 0 <= fee < p.feeBufferLovelace
    ensures PureSum(AfterSplit(w, i, PlanFrom(w, i, p).outputLovelaces, fee, txHash), Square()) < PureSum(w, Square())
  {
    var outputs, l := PlanFrom(w, i, p).outputLovelaces, w[i].lovelace;
    var change := l - Total(outputs) - fee;
    PlanTotals(w, i, p);
    var parts := outputs + [change];
    SquaresOfParts(parts);
    SumAppend(outputs, [change], Size());
    assert Sum([change], Size()) == change;
    SquareMonotone(Total(parts), l);
    var made := Produced(parts, txHash);
    SumRemoveAt(w, i, PureWeight(Square()));
    SumAppend(RemoveAt(w, i), made, PureWeight(Square()));
    SumProduced(parts, made, Square());
  }

  /** No split costs the wallet a lane or a collateral UTxO that the profile still counts on. */
  lemma SplitKeepsShape(w: seq<Utxo>, i: nat, p: Profile, fee: int, txHash: string)
    requires Sensible(p) && IsLargestPure(w, i) && PlanFrom(w, i, p).Act? && 0 <= fee < p.feeBufferLovelace
    ensures var w' := AfterSplit(w, i, PlanFrom(w, i, p).outputLovelaces, fee, txHash);
      && Min(p.workingCount, Lanes(w, p)) <= Min(p.workingCount, Lanes(w', p))
      && Min(p.collateralCount, Collaterals(w, p)) <= Min(p.collateralCount, Collaterals(w', p))
  {
    var rest, l := RemoveAt(w, i), w[i].lovelace;
    StatAfterSplit(w, i, p, fee, txHash, AtLeast(p.workingLovelace));
    StatAfterSplit(w, i, p, fee, txHash, Between(p.collateralLovelace, p.workingLovelace));
    StatsWithoutSource(w, i, p);
    PieceBounds(rest, p, l);
    if l < p.workingLovelace {
      NoLaneBelow(w, p);
    }
  }

  /** The lovelace of the wallet falls by exactly the fee, and token-bearing UTxOs stay where they are. */
  lemma SplitConserves(w: seq<Utxo>, i: nat, p: Profile, fee: int, txHash: string)
    requires IsLargestPure(w, i) && PlanFrom(w, i, p).Act?
    ensures var w' := AfterSplit(w, i, PlanFrom(w, i, p).outputLovelaces, fee, txHash);
      && PureSum(w', Size()) == PureSum(w, Size()) - fee
      && (forall u: Utxo :: u in w' && !u.hasOnlyAda <==> u in w && !u.hasOnlyAda)
  {
    var outputs := PlanFrom(w, i, p).outputLovelaces;
    var w' := AfterSplit(w, i, outputs, fee, txHash);
    var made := Produced(outputs + [w[i].lovelace - Total(outputs) - fee], txHash);
    SumRemoveAt(w, i, PureWeight(Size()));
    SumAppend(RemoveAt(w, i), made, PureWeight(Size()));
    SumProduced(outputs + [w[i].lovelace - Total(outputs) - fee], made, Size());
    SumAppend(outputs, [w[i].lovelace - Total(outputs) - fee], Size());
    forall u: Utxo | !u.hasOnlyAda
      ensures u in w' <==> u in w
    {
      assert u in RemoveAt(w, i) <==> u in w by {
        assert w == w[..i] + [w[i]] + w[i + 1..];
      }
    }
  }

  // ----- runs of splits

  ghost predicate SplitStep(w: seq<Utxo>, w': seq<Utxo>, p: Profile, maxFee: int) {
    exists i, fee, txHash :: SplitVia(w, w', p, maxFee, i, fee, txHash)
  }

  ghost predicate SplitVia(w: seq<Utxo>, w': seq<Utxo>, p: Profile, maxFee: int, i: nat, fee: int, txHash: string) {
    && IsLargestPure(w, i) && PlanFrom(w, i, p).Act?
    && 0 <= fee <= maxFee && FreshHash(w, txHash)
    && ExecuteSplit(w, PlanFrom(w, i, p).consumeOutRefs, PlanFrom(w, i, p).outputLovelaces, fee, txHash) == Ok(w')
  }

  ghost predicate SplitRun(ws: seq<seq<Utxo>>, p: Profile, maxFee: int) {
    |ws| > 0 && forall k :: 0 <= k < |ws| - 1 ==> SplitStep(ws[k], ws[k + 1], p, maxFee)
  }

  /** Every split leaves at least one more UTxO of size `piece` or larger. */
  lemma SplitAddsPiece(w: seq<Utxo>, w': seq<Utxo>, p: Profile, maxFee: int, piece: int)
    requires Sensible(p) && OnChain(w) && SplitStep(w, w', p, maxFee) && maxFee < p.feeBufferLovelace
    requires 0 < piece <= p.collateralLovelace && piece <= p.feeBufferLovelace - maxFee
    ensures OnChain(w')
    ensures PureSum(w, AtLeast(piece)) < PureSum(w', AtLeast(piece))
    ensures PureSum(w', Size()) <= PureSum(w, Size())
  {
    var i: nat, fee: int, txHash: string :| SplitVia(w, w', p, maxFee, i, fee, txHash);
    PlanExecutes(w, i, p, fee, txHash);
    PlanTotals(w, i, p);
    StatAfterSplit(w, i, p, fee, txHash, AtLeast(piece));
    SplitConserves(w, i, p, fee, txHash);
    assert |PlanFrom(w, i, p).outputLovelaces|
        == WorkingPieces(RemoveAt(w, i), p, w[i].lovelace) + CollateralPieces(RemoveAt(w, i), p, w[i].lovelace);
  }

  lemma {:induction false} PiecesFit(w: seq<Utxo>, piece: int)
    requires OnChain(w) && 0 < piece
    ensures 0 <= PureSum(w, AtLeast(piece)) && PureSum(w, AtLeast(piece)) * piece <= PureSum(w, Size())
  {
    if w != [] {
      PiecesFit(w[1..], piece);
      assert (1 + PureSum(w[1..], AtLeast(piece))) * piece == piece + PureSum(w[1..], AtLeast(piece)) * piece;
    }
  }

  /** Splitting terminates: n splits need n pieces of the smallest size a split can create. */
  lemma {:induction false} RunIsShort(ws: seq<seq<Utxo>>, p: Profile, maxFee: int, piece: int)
    requires Sensible(p) && SplitRun(ws, p, maxFee) && OnChain(ws[0]) && maxFee < p.feeBufferLovelace
    requires 0 < piece <= p.collateralLovelace && piece <= p.feeBufferLovelace - maxFee
    ensures (|ws| - 1) * piece <= PureSum(ws[0], Size())
  {
    RunAddsPieces(ws, p, maxFee, piece);
    PiecesFit(ws[0], piece);
    var last := ws[|ws| - 1];
    PiecesFit(last, piece);
    MulMonotone(|ws| - 1, PureSum(last, AtLeast(piece)), piece);
  }

  lemma {:induction false} RunAddsPieces(ws: seq<seq<Utxo>>, p: Profile, maxFee: int, piece: int)
    requires Sensible(p) && SplitRun(ws, p, maxFee) && OnChain(ws[0]) && maxFee < p.feeBufferLovelace
    requires 0 < piece <= p.collateralLovelace && piece <= p.feeBufferLovelace - maxFee
    ensures var last := ws[|ws| - 1];
      && OnChain(last)
      && |ws| - 1 + PureSum(ws[0], AtLeast(piece)) <= PureSum(last, AtLeast(piece))
      && PureSum(last, Size()) <= PureSum(ws[0], Size())
    decreases |ws|
  {
    if |ws| > 1 {
      var n := |ws| - 1;
      assert SplitRun(ws[..n], p, maxFee) by {
        forall k | 0 <= k < n - 1
          ensures SplitStep(ws[..n][k], ws[..n][k + 1], p, maxFee)
        {
          assert SplitStep(ws[k], ws[k + 1], p, maxFee);
        }
      }
      RunAddsPieces(ws[..n], p, maxFee, piece);
      assert SplitStep(ws[n - 1], ws[n - 1 + 1], p, maxFee);
      SplitAddsPiece(ws[n - 1], ws[n], p, maxFee, piece);
    }
  }

  // ----- when the planner rests

  /** No choice of source makes the planner act. */
  ghost predicate Stable(w: seq<Utxo>, p: Profile) {
    forall i :: IsLargestPure(w, i) ==> !PlanFrom(w, i, p).Act?
  }

  /** Funding with at least the buffer lands the whole amount, in positive pieces. */
  lemma FundingLandsWhole(w: seq<Utxo>, p: Profile, amount: int)
    requires Sensible(p) && p.feeBufferLovelace <= amount
    ensures var outputs := ShapeOutputs(w, p, amount, true);
      Total(outputs) == amount && forall k :: 0 <= k < |outputs| ==> 0 < outputs[k]
  {
    var mw, mc := WorkingPieces(w, p, amount), CollateralPieces(w, p, amount);
    PieceBounds(w, p, amount);
    PieceSum(p, mw, mc, [Leftover(w, p, amount)], Size());
  }

  lemma PieceSum(p: Profile, mw: nat, mc: nat, tail: seq<int>, g: int -> int)
    ensures Sum(Copies(p.workingLovelace, mw) + Copies(p.collateralLovelace, mc) + tail, g)
         == mw * g(p.workingLovelace) + mc * g(p.collateralLovelace) + Sum(tail, g)
  {
    SumAppend(Copies(p.workingLovelace, mw) + Copies(p.collateralLovelace, mc), tail, g);
    SumAppend(Copies(p.workingLovelace, mw), Copies(p.collateralLovelace, mc), g);
    SumCopies(p.workingLovelace, mw, g);
    SumCopies(p.collateralLovelace, mc, g);
  }

  lemma StatAfterFunding(w: seq<Utxo>, p: Profile, amount: int, txHash: string, g: int -> int)
    ensures var r := Leftover(w, p, amount);
      PureSum(FundedPool(w, p, amount, txHash), g)
        == PureSum(w, g) + WorkingPieces(w, p, amount) * g(p.workingLovelace)
           + CollateralPieces(w, p, amount) * g(p.collateralLovelace)
           + if r >= p.feeBufferLovelace then g(r) else 0
  {
    var outputs := ShapeOutputs(w, p, amount, true);
    var r := Leftover(w, p, amount);
    var tail := if r >= p.feeBufferLovelace then [r] else [];
    SumAppend(w, Produced(outputs, txHash), PureWeight(g));
    SumProduced(outputs, Produced(outputs, txHash), g);
    PieceSum(p, WorkingPieces(w, p, amount), CollateralPieces(w, p, amount), tail, g);
  }

  /** Profiles whose lanes are big enough to give up a collateral piece, or that never need to. */
  predicate Roomy(p: Profile) {
    || p.workingCount <= 0 || p.collateralCount <= 0
    || p.workingLovelace >= p.collateralLovelace + p.feeBufferLovelace
  }

  /** The counts after funding, as PieceBounds and StatAfterFunding relate them to the counts before. */
  predicate FundedCounts(p: Profile, lanes: int, collaterals: int, mw: int, mc: int, r: int,
                         lanes': int, collaterals': int)
  {
    && 0 <= lanes && 0 <= collaterals
    && 0 <= mw <= Missing(p.workingCount, lanes)
    && 0 <= mc <= Missing(p.collateralCount, collaterals)
    && (lanes + mw >= p.workingCount || (mc == 0 && r < p.workingLovelace + p.feeBufferLovelace))
    && (lanes + mw >= p.workingCount ==>
          mc == Missing(p.collateralCount, collaterals) || r < p.collateralLovelace + p.feeBufferLovelace)
    && lanes' == lanes + mw + (if r >= p.feeBufferLovelace then AtLeast(p.workingLovelace)(r) else 0)
    && collaterals' == collaterals + mc
       + (if r >= p.feeBufferLovelace then Between(p.collateralLovelace, p.workingLovelace)(r) else 0)
  }

  lemma FundedCountsHold(w: seq<Utxo>, p: Profile, amount: int, txHash: string)
    requires Sensible(p)
    ensures var w' := FundedPool(w, p, amount, txHash);
      FundedCounts(p, Lanes(w, p), Collaterals(w, p), WorkingPieces(w, p, amount), CollateralPieces(w, p, amount),
                   Leftover(w, p, amount), Lanes(w', p), Collaterals(w', p))
  {
    StatAfterFunding(w, p, amount, txHash, AtLeast(p.workingLovelace));
    StatAfterFunding(w, p, amount, txHash, Between(p.collateralLovelace, p.workingLovelace));
    PieceBounds(w, p, amount);
    StatsNonNegative(w, p);
  }

  /** A freshly paid piece is never worth splitting. */
  lemma NewPieceRests(p: Profile, lanes: int, collaterals: int, mw: int, mc: int, r: int,
                      lanes': int, collaterals': int, l: int)
    requires Sensible(p) && FundedCounts(p, lanes, collaterals, mw, mc, r, lanes', collaterals')
    requires (l == p.workingLovelace && mw > 0) || l == p.collateralLovelace || l == r >= p.feeBufferLovelace
    ensures !ShouldSplit(p, lanes', collaterals', l)
  {
  }

  /** An old UTxO that rested before funding still rests, if the profile is roomy. */
  lemma OldUtxoRests(p: Profile, lanes: int, collaterals: int, mw: int, mc: int, r: int,
                     lanes': int, collaterals': int, l: int)
    requires Sensible(p) && Roomy(p) && FundedCounts(p, lanes, collaterals, mw, mc, r, lanes', collaterals')
    requires !ShouldSplit(p, lanes, collaterals, l) && (l < p.workingLovelace ==> lanes' == 0)
    requires l >= p.workingLovelace ==> 1 <= lanes
    ensures !ShouldSplit(p, lanes', collaterals', l)
  {
  }

  /** A UTxO of the pool from before the funding stays unsplit. */
  lemma OldSourceRests(w: seq<Utxo>, p: Profile, amount: int, txHash: string, i: nat)
    requires Sensible(p) && Stable(w, p) && Roomy(p) && i < |w| && IsLargestPure(FundedPool(w, p, amount, txHash), i)
    ensures !PlanFrom(FundedPool(w, p, amount, txHash), i, p).Act?
  {
    var w' := FundedPool(w, p, amount, txHash);
    assert forall k :: 0 <= k < |w| ==> w'[k] == w[k];
    assert IsLargestPure(w, i) && !PlanFrom(w, i, p).Act?;
    ActsExactlyWhen(w, i, p);
    ActsExactlyWhen(w', i, p);
    OldSourceFacts(w, p, i);
    if w'[i].lovelace < p.workingLovelace {
      NoLaneBelow(w', p);
    }
    FundedCountsHold(w, p, amount, txHash);
    OldUtxoRests(p, Lanes(w, p), Collaterals(w, p), WorkingPieces(w, p, amount), CollateralPieces(w, p, amount),
                 Leftover(w, p, amount), Lanes(w', p), Collaterals(w', p), w[i].lovelace);
  }

  lemma OldSourceFacts(w: seq<Utxo>, p: Profile, i: nat)
    requires IsLargestPure(w, i)
    ensures w[i].lovelace >= p.workingLovelace ==> 1 <= Lanes(w, p)
  {
    StatsWithoutSource(w, i, p);
    StatsNonNegative(RemoveAt(w, i), p);
  }

  /** So does a piece that the funding paid. */
  lemma NewSourceRests(w: seq<Utxo>, p: Profile, amount: int, txHash: string, i: nat)
    requires Sensible(p) && |w| <= i && IsLargestPure(FundedPool(w, p, amount, txHash), i)
    ensures !PlanFrom(FundedPool(w, p, amount, txHash), i, p).Act?
  {
    var w' := FundedPool(w, p, amount, txHash);
    assert w'[i].lovelace == ShapeOutputs(w, p, amount, true)[i - |w|];
    ActsExactlyWhen(w', i, p);
    FundedCountsHold(w, p, amount, txHash);
    NewPieceRests(p, Lanes(w, p), Collaterals(w, p), WorkingPieces(w, p, amount), CollateralPieces(w, p, amount),
                  Leftover(w, p, amount), Lanes(w', p), Collaterals(w', p), w'[i].lovelace);
  }

  /** Funding a wallet at rest leaves it at rest; an empty pool needs no condition on the profile. */
  lemma FundingKeepsRest(w: seq<Utxo>, p: Profile, amount: int, txHash: string)
    requires Sensible(p) && Stable(w, p) && (Roomy(p) || NoPure(w))
    ensures Stable(FundedPool(w, p, amount, txHash), p)
  {
    forall i: nat | IsLargestPure(FundedPool(w, p, amount, txHash), i)
      ensures !PlanFrom(FundedPool(w, p, amount, txHash), i, p).Act?
    {
      if i < |w| {
        assert FundedPool(w, p, amount, txHash)[i] == w[i];
        OldSourceRests(w, p, amount, txHash, i);
      } else {
        NewSourceRests(w, p, amount, txHash, i);
      }
    }
  }

  /** "No second split" after funding holds for every pool at rest and every amount exactly for roomy profiles. */
  lemma FundingIsFinalExactlyWhenRoomy(p: Profile)
    requires Sensible(p)
    ensures Roomy(p)
       <==> forall w, amount, txHash :: Stable(w, p) ==> Stable(FundedPool(w, p, amount, txHash), p)
  {
    if Roomy(p) {
      forall w: seq<Utxo>, amount, txHash | Stable(w, p)
        ensures Stable(FundedPool(w, p, amount, txHash), p)
      {
        FundingKeepsRest(w, p, amount, txHash);
      }
    } else {
      CrampedProfileSplitsAgain(p);
    }
  }

  /** Lanes of exactly collateral + buffer, topped up with one lovelace less, are carved right after funding. */
  lemma CrampedProfileSplitsAgain(p: Profile)
    requires Sensible(p) && !Roomy(p)
    ensures exists w, amount, txHash :: Stable(w, p) && !Stable(FundedPool(w, p, amount, txHash), p)
  {
    var size := p.collateralLovelace + p.feeBufferLovelace;
    var n: nat := p.workingCount;
    var w := Produced(Copies(size, n), "a");
    var amount := size - 1;
    SumProduced(Copies(size, n), w, AtLeast(p.workingLovelace));
    SumProduced(Copies(size, n), w, Between(p.collateralLovelace, p.workingLovelace));
    SumCopies(size, n, AtLeast(p.workingLovelace));
    SumCopies(size, n, Between(p.collateralLovelace, p.workingLovelace));
    forall i: nat | IsLargestPure(w, i)
      ensures !PlanFrom(w, i, p).Act?
    {
      ActsExactlyWhen(w, i, p);
    }
    assert WorkingPieces(w, p, amount) == 0 && CollateralPieces(w, p, amount) == 0;
    assert ShapeOutputs(w, p, amount, true) == [amount];
    var w' := FundedPool(w, p, amount, "b");
    assert IsLargestPure(w', 0);
    StatAfterFunding(w, p, amount, "b", AtLeast(p.workingLovelace));
    StatAfterFunding(w, p, amount, "b", Between(p.collateralLovelace, p.workingLovelace));
    ActsExactlyWhen(w', 0, p);
    assert !Stable(w', p);
  }

  lemma TargetPieceCounts(p: Profile, mw: nat, mc: nat, r: int)
    requires Sensible(p) && 1 <= p.collateralCount && p.feeBufferLovelace <= p.collateralLovelace
    requires mw <= p.workingCount && mc <= p.collateralCount
    requires mw * p.workingLovelace + mc * p.collateralLovelace + r
          == p.workingCount * p.workingLovelace + p.collateralCount * p.collateralLovelace
    requires mw < p.workingCount ==> mc == 0 && r < p.workingLovelace + p.feeBufferLovelace
    requires mw == p.workingCount ==> mc == p.collateralCount || r < p.collateralLovelace + p.feeBufferLovelace
    requires r >= p.feeBufferLovelace
    ensures mw == p.workingCount && mc == p.collateralCount - 1 && r == p.collateralLovelace
  {
    var lanesLeft, collateralLeft := p.workingCount - mw, p.collateralCount - mc;
    assert r == lanesLeft * p.workingLovelace + collateralLeft * p.collateralLovelace;
    MulMonotone(1, p.collateralCount, p.collateralLovelace);
    if lanesLeft > 0 {
      MulMonotone(1, lanesLeft, p.workingLovelace);
    }
    if collateralLeft >= 2 {
      MulMonotone(2, collateralLeft, p.collateralLovelace);
    }
  }

  function TargetAmount(p: Profile): int {
    p.workingCount * p.workingLovelace + p.collateralCount * p.collateralLovelace
  }

  lemma NothingYet(p: Profile)
    ensures Lanes([], p) == 0 && Collaterals([], p) == 0
  {
  }

  lemma TargetFits(p: Profile)
    requires Sensible(p) && 0 <= p.workingCount && 1 <= p.collateralCount && p.feeBufferLovelace <= p.collateralLovelace
    ensures ShapeOutputs([], p, TargetAmount(p), true)
         == Copies(p.workingLovelace, p.workingCount) + Copies(p.collateralLovelace, p.collateralCount)
  {
    hide Minted, Lanes, Collaterals;
    var c, amount := p.collateralLovelace, TargetAmount(p);
    var mc := CollateralPieces([], p, amount);
    NothingYet(p);
    PieceBounds([], p, amount);
    TargetPieceCounts(p, WorkingPieces([], p, amount), mc, Leftover([], p, amount));
    assert Copies(c, mc) + [c] == Copies(c, p.collateralCount);
  }

  lemma TargetMissed(p: Profile)
    requires Sensible(p) && 0 <= p.workingCount && 1 <= p.collateralCount && p.feeBufferLovelace > p.collateralLovelace
    ensures ShapeOutputs([], p, TargetAmount(p), true)
         != Copies(p.workingLovelace, p.workingCount) + Copies(p.collateralLovelace, p.collateralCount)
  {
    var amount := TargetAmount(p);
    var r, outputs := Leftover([], p, amount), ShapeOutputs([], p, amount, true);
    var shape := Copies(p.workingLovelace, p.workingCount) + Copies(p.collateralLovelace, p.collateralCount);
    PieceBounds([], p, amount);
    assert shape[|shape| - 1] == p.collateralLovelace;
    assert r >= p.feeBufferLovelace ==> outputs[|outputs| - 1] == r;
    assert r < p.feeBufferLovelace ==> outputs == [];
  }

  /** The documented pool target: funding an empty pool with it lands exactly the profile, for all counts. */
  lemma TargetFundingIsExact(p: Profile)
    requires Sensible(p) && 0 <= p.workingCount && 1 <= p.collateralCount
    ensures ShapeOutputs([], p, TargetAmount(p), true)
            == Copies(p.workingLovelace, p.workingCount) + Copies(p.collateralLovelace, p.collateralCount)
       <==> p.feeBufferLovelace <= p.collateralLovelace
  {
    if p.feeBufferLovelace <= p.collateralLovelace {
      TargetFits(p);
    } else {
      TargetMissed(p);
    }
  }
}

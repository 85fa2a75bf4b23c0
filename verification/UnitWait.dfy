/** Waiting for a unit's UTxO to be replaced, with rollback checks (core/chain-helpers.ts, core/tx-onchain-check.ts). */
module UnitWait {
  import opened Prelude
  import opened WalletWait

  const ROLLBACK_CHECK_INTERVAL: nat := 60

  // ----- is the transaction still on chain?

  /**
    What a JSON body is to code that reads its `length`: nothing it can read (not JSON, or null), a list, a text, or
    another value, with or without a `length` member above zero.
   */
  datatype Body = Unreadable | List(rows: nat) | Text(chars: nat) | Other(hasLength: bool)

  /** An HTTP answer, or none at all. */
  datatype Http = Response(status: int, body: Body) | NoResponse

  datatype Presence = Present | Absent | Unknown

  predicate IsOk(h: Http) {
    h.Response? && 200 <= h.status < 300
  }

  /** `payload.length > 0` */
  predicate LengthAboveZero(b: Body) {
    match b
    case List(rows) => rows > 0
    case Text(chars) => chars > 0
    case Other(hasLength) => hasLength
    case Unreadable => false
  }

  /** A list of transactions is expected, but every readable body is taken at its length. */
  function KoiosPresence(h: Http): Presence {
    if !IsOk(h) || h.body.Unreadable? then Unknown
    else if LengthAboveZero(h.body) then Present
    else Absent
  }

  function BlockfrostPresence(h: Http): Presence {
    if h.Response? && h.status == 404 then Absent
    else if IsOk(h) then Present
    else Unknown
  }

  datatype Dropped = TxDroppedFromChain

  function AssertTxStillOnChain(koios: Http, blockfrost: Http): Result<(), Dropped> {
    var k, b := KoiosPresence(koios), BlockfrostPresence(blockfrost);
    if k == Present || b == Present then Ok(())
    else if k == Absent && b == Absent then Err(TxDroppedFromChain)
    else Ok(())
  }

  function IsTxOnChain(koios: Http, blockfrost: Http): bool {
    KoiosPresence(koios) == Present || BlockfrostPresence(blockfrost) == Present
  }

  /** The two verdicts never contradict each other, and they leave a gap exactly when an answer is missing. */
  lemma VerdictsAgree(koios: Http, blockfrost: Http)
    ensures AssertTxStillOnChain(koios, blockfrost).Err? ==> !IsTxOnChain(koios, blockfrost)
    ensures AssertTxStillOnChain(koios, blockfrost).Ok? && !IsTxOnChain(koios, blockfrost)
       <==> !IsTxOnChain(koios, blockfrost)
            && (KoiosPresence(koios) == Unknown || BlockfrostPresence(blockfrost) == Unknown)
  {
  }

  /** "On chain" is a readable 2xx body with a length from one provider, or any 2xx answer from the other. */
  lemma OnChainExactly(koios: Http, blockfrost: Http)
    ensures IsTxOnChain(koios, blockfrost)
       <==> (koios.Response? && 200 <= koios.status < 300
             && ((koios.body.List? && koios.body.rows > 0) || (koios.body.Text? && koios.body.chars > 0)
                 || koios.body == Other(true)))
            || (blockfrost.Response? && 200 <= blockfrost.status < 300)
  {
  }

  /** "Dropped" is a 404 from one provider together with any readable 2xx body of no length from the other. */
  lemma DroppedExactlyWhenBothSayAbsent(koios: Http, blockfrost: Http)
    ensures AssertTxStillOnChain(koios, blockfrost).Err?
       <==> koios.Response? && 200 <= koios.status < 300
            && koios.body in {List(0), Text(0), Other(false)}
            && blockfrost.Response? && blockfrost.status == 404
  {
  }

  /** Both providers say "not found" in the form they are documented to: an empty list, and a 404. */
  predicate ConfidentlyAbsent(koios: Http, blockfrost: Http) {
    IsOk(koios) && koios.body == List(0) && blockfrost.Response? && blockfrost.status == 404
  }

  /**
    The promise that only two confident answers abandon a wait is kept by a pair of answers exactly when the first
    is not a readable 2xx body of another kind than a list, without length, beside a 404.
   */
  lemma ConfidentExactlyForLists(koios: Http, blockfrost: Http)
    ensures (AssertTxStillOnChain(koios, blockfrost).Err? ==> ConfidentlyAbsent(koios, blockfrost))
       <==> !(IsOk(koios) && koios.body in {Text(0), Other(false)} && blockfrost.Response? && blockfrost.status == 404)
    ensures ConfidentlyAbsent(koios, blockfrost) ==> AssertTxStillOnChain(koios, blockfrost).Err?
  {
  }

  // ----- what one poll accepts

  /** An empty hash counts as none. */
  predicate Given(txHash: Option<string>) {
    txHash.Some? && txHash.value != ""
  }

  predicate Differs(u: OutRef, previous: Option<OutRef>) {
    previous.None? || u != previous.value
  }

  function FirstFrom(utxos: seq<OutRef>, txHash: string): Option<OutRef> {
    if utxos == [] then None
    else if utxos[0].txHash == txHash then Some(utxos[0])
    else FirstFrom(utxos[1..], txHash)
  }

  function FirstDiffering(utxos: seq<OutRef>, previous: Option<OutRef>): Option<OutRef> {
    if utxos == [] then None
    else if Differs(utxos[0], previous) then Some(utxos[0])
    else FirstDiffering(utxos[1..], previous)
  }

  function Pick(utxos: seq<OutRef>, txHash: Option<string>, previous: Option<OutRef>): Option<OutRef> {
    if Given(txHash) && FirstFrom(utxos, txHash.value).Some? then FirstFrom(utxos, txHash.value)
    else
      var replacement := FirstDiffering(utxos, previous);
      if |utxos| == 1 && replacement.Some? then replacement else None
  }

  /** The listed output of the transaction that comes first. */
  predicate IsFirstFrom(utxos: seq<OutRef>, txHash: string, i: int) {
    && 0 <= i < |utxos| && utxos[i].txHash == txHash
    && forall j :: 0 <= j < i ==> utxos[j].txHash != txHash
  }

  lemma {:induction false} FirstFromFinds(utxos: seq<OutRef>, txHash: string)
    ensures FirstFrom(utxos, txHash).Some? <==> exists u :: u in utxos && u.txHash == txHash
    ensures FirstFrom(utxos, txHash).Some? ==>
              exists i :: IsFirstFrom(utxos, txHash, i) && FirstFrom(utxos, txHash) == Some(utxos[i])
  {
    if utxos != [] {
      FirstFromFinds(utxos[1..], txHash);
      assert utxos == [utxos[0]] + utxos[1..];
      if utxos[0].txHash == txHash {
        assert IsFirstFrom(utxos, txHash, 0);
      } else if FirstFrom(utxos[1..], txHash).Some? {
        var i :| IsFirstFrom(utxos[1..], txHash, i) && FirstFrom(utxos[1..], txHash) == Some(utxos[1..][i]);
        assert IsFirstFrom(utxos, txHash, i + 1);
      }
    }
  }

  lemma SoleDiffering(utxos: seq<OutRef>, previous: Option<OutRef>)
    ensures |utxos| == 1 ==>
      FirstDiffering(utxos, previous) == if Differs(utxos[0], previous) then Some(utxos[0]) else None
  {
    if |utxos| == 1 {
      assert utxos[1..] == [];
    }
  }

  /**
    What is returned was produced by the transaction or is the one UTxO listed, and is never the previous one. An empty
    hash is no hash.
   */
  lemma PickIsSound(utxos: seq<OutRef>, txHash: Option<string>, previous: Option<OutRef>)
    ensures var given := txHash.Some? && txHash.value != "";
      var found := Pick(utxos, txHash, previous);
      && (found.Some?
          <==> (given && exists u :: u in utxos && u.txHash == txHash.value)
               || (|utxos| == 1 && previous != Some(utxos[0])))
      && (found.Some? ==>
            && ((given && exists i :: IsFirstFrom(utxos, txHash.value, i) && found.value == utxos[i])
                || (utxos == [found.value] && previous != found))
            && (!given || previous.None? || previous.value.txHash != txHash.value ==> previous != found))
  {
    if Given(txHash) {
      FirstFromFinds(utxos, txHash.value);
    }
    SoleDiffering(utxos, previous);
  }

  /**
    The documentation promises the submitted transaction's own output whenever its hash is given. The fallback runs
    all the same, so this holds exactly when such an output is listed.
   */
  lemma PickIsOwnOutputExactlyWhenListed(utxos: seq<OutRef>, txHash: string, previous: Option<OutRef>)
    requires txHash != "" && Pick(utxos, Some(txHash), previous).Some?
    ensures Pick(utxos, Some(txHash), previous).value.txHash == txHash <==> exists u :: u in utxos && u.txHash == txHash
  {
    FirstFromFinds(utxos, txHash);
    SoleDiffering(utxos, previous);
  }

  lemma FallbackReturnsForeignOutput(txHash: string, previous: OutRef, other: OutRef)
    requires txHash != "" && other != previous && other.txHash != txHash
    ensures Pick([other], Some(txHash), Some(previous)) == Some(other)
  {
    FirstFromFinds([other], txHash);
  }

  // ----- the loop

  datatype Outcome = Replaced(utxo: OutRef) | RolledBack | Exhausted

  predicate Hit(poll: nat -> Reply, k: nat, txHash: Option<string>, previous: Option<OutRef>) {
    poll(k).Listed? && Pick(poll(k).utxos, txHash, previous).Some?
  }

  /** Poll `k` ends with a rollback check that reports the transaction as dropped. */
  predicate Drop(koios: nat -> Http, blockfrost: nat -> Http, k: nat, txHash: Option<string>) {
    && txHash.Some? && txHash.value != "" && k > 0 && k % 60 == 0
    && AssertTxStillOnChain(koios(k), blockfrost(k)).Err?
  }

  /** The one outcome that a sequence of replies allows, and the poll that decides it. */
  ghost predicate Decides(poll: nat -> Reply, koios: nat -> Http, blockfrost: nat -> Http, txHash: Option<string>,
                          previous: Option<OutRef>, maxAttempts: int, outcome: Outcome, at: nat) {
    && (forall j :: 0 <= j < at ==> !Hit(poll, j, txHash, previous) && !Drop(koios, blockfrost, j, txHash))
    && match outcome
       case Replaced(u) =>
         at < maxAttempts && Hit(poll, at, txHash, previous) && Pick(poll(at).utxos, txHash, previous) == Some(u)
       case RolledBack =>
         at < maxAttempts && !Hit(poll, at, txHash, previous) && Drop(koios, blockfrost, at, txHash)
       case Exhausted =>
         at == Max(0, maxAttempts)
  }

  method WaitForUnitUtxoReplacement(poll: nat -> Reply, koios: nat -> Http, blockfrost: nat -> Http,
                                    txHash: Option<string>, previous: Option<OutRef>, maxAttempts: int)
    returns (outcome: Outcome, at: nat)
    ensures Decides(poll, koios, blockfrost, txHash, previous, maxAttempts, outcome, at)
  {
    at := 0;
    while at < maxAttempts
      invariant at <= Max(0, maxAttempts)
      invariant forall j :: 0 <= j < at ==> !Hit(poll, j, txHash, previous) && !Drop(koios, blockfrost, j, txHash)
    {
      var reply := poll(at);
      if reply.Listed? {
        var found := Pick(reply.utxos, txHash, previous);
        if found.Some? {
          return Replaced(found.value), at;
        }
      }
      if Given(txHash) && at > 0 && at % ROLLBACK_CHECK_INTERVAL == 0 {
        var check := AssertTxStillOnChain(koios(at), blockfrost(at));
        if check.Err? {
          return RolledBack, at;
        }
      }
      at := at + 1;
    }
    return Exhausted, at;
  }

  /** The first poll from `from` on at which a rollback check runs. */
  function NextCheck(from: nat): (k: nat)
    ensures k > 0 && k % 60 == 0 && from <= k < Max(1, from) + 60
  {
    var start := Max(1, from);
    (start + 59) / 60 * 60
  }

  /** Once both providers stay definitively absent, the next check ends the wait, unless it has ended before. */
  lemma RollbackIsNoticed(poll: nat -> Reply, koios: nat -> Http, blockfrost: nat -> Http, txHash: Option<string>,
                          previous: Option<OutRef>, maxAttempts: int, outcome: Outcome, at: nat, gone: nat)
    requires Decides(poll, koios, blockfrost, txHash, previous, maxAttempts, outcome, at)
    requires txHash.Some? && txHash.value != ""
    requires forall k :: gone <= k ==> AssertTxStillOnChain(koios(k), blockfrost(k)).Err?
    ensures at <= NextCheck(gone)
    ensures outcome.RolledBack? && gone <= at ==> at == NextCheck(gone)
    ensures outcome.Exhausted? ==> maxAttempts <= NextCheck(gone)
    ensures at == NextCheck(gone) && at < maxAttempts && !Hit(poll, at, txHash, previous) ==> outcome.RolledBack?
  {
    var k := NextCheck(gone);
    assert Drop(koios, blockfrost, k, txHash);
    if outcome.RolledBack? && gone <= at < k {
      MultiplesAreApart(at, k);
    }
  }

  lemma MultiplesAreApart(a: nat, b: nat)
    requires a < b && a % 60 == 0 && b % 60 == 0
    ensures a + 60 <= b
  {
  }

  /** As long as one provider has the transaction or counts as unknown, a wait is never abandoned. */
  lemma UnknownAnswersNeverAbandon(poll: nat -> Reply, koios: nat -> Http, blockfrost: nat -> Http,
                                   txHash: Option<string>, previous: Option<OutRef>, maxAttempts: int,
                                   outcome: Outcome, at: nat)
    requires Decides(poll, koios, blockfrost, txHash, previous, maxAttempts, outcome, at)
    requires forall k: nat :: KoiosPresence(koios(k)) != Absent || BlockfrostPresence(blockfrost(k)) != Absent
    ensures !outcome.RolledBack?
  {
    assert KoiosPresence(koios(at)) != Absent || BlockfrostPresence(blockfrost(at)) != Absent;
  }

  /** A body in which no transaction list can be read, although its status is 2xx. */
  predicate IsNotAList(h: Http) {
    IsOk(h) && (h.body.Text? || h.body.Other?)
  }

  /** An abandoned wait rests on two confident answers exactly when the deciding 2xx body was a list. */
  lemma AbandonedForConfidentAnswersExactly(poll: nat -> Reply, koios: nat -> Http, blockfrost: nat -> Http,
                                            txHash: Option<string>, previous: Option<OutRef>, maxAttempts: int,
                                            at: nat)
    requires Decides(poll, koios, blockfrost, txHash, previous, maxAttempts, RolledBack, at)
    ensures ConfidentlyAbsent(koios(at), blockfrost(at)) <==> !IsNotAList(koios(at))
  {
    assert Drop(koios, blockfrost, at, txHash);
    DroppedExactlyWhenBothSayAbsent(koios(at), blockfrost(at));
  }

  /** If lists are all that 2xx answers carry, unclear answers never abandon a wait. */
  lemma UnclearAnswersNeverAbandon(poll: nat -> Reply, koios: nat -> Http, blockfrost: nat -> Http,
                                   txHash: Option<string>, previous: Option<OutRef>, maxAttempts: int,
                                   outcome: Outcome, at: nat)
    requires Decides(poll, koios, blockfrost, txHash, previous, maxAttempts, outcome, at)
    requires forall k: nat :: !IsNotAList(koios(k)) && !ConfidentlyAbsent(koios(k), blockfrost(k))
    ensures !outcome.RolledBack?
  {
    assert !IsNotAList(koios(at)) && !ConfidentlyAbsent(koios(at), blockfrost(at));
    if outcome.RolledBack? {
      AbandonedForConfidentAnswersExactly(poll, koios, blockfrost, txHash, previous, maxAttempts, at);
    }
  }

  /** Without that: a provider that only ever fails to list the unit, `{}` from one check and 404 from the other. */
  lemma EmptyObjectAbandons(txHash: string, previous: Option<OutRef>, maxAttempts: int)
    requires txHash != "" && maxAttempts > 60
    ensures Decides((k: nat) => Reply.Failed, (k: nat) => Response(200, Other(false)),
                    (k: nat) => Response(404, Other(false)), Some(txHash), previous, maxAttempts,
                    RolledBack, 60)
  {
  }

  /** The outcome is a function of the replies. */
  lemma OutcomeIsDetermined(poll: nat -> Reply, koios: nat -> Http, blockfrost: nat -> Http, txHash: Option<string>,
                            previous: Option<OutRef>, maxAttempts: int, o1: Outcome, a1: nat, o2: Outcome, a2: nat)
    requires Decides(poll, koios, blockfrost, txHash, previous, maxAttempts, o1, a1)
    requires Decides(poll, koios, blockfrost, txHash, previous, maxAttempts, o2, a2)
    ensures o1 == o2 && a1 == a2
  {
  }
}

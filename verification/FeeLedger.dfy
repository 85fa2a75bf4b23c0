/**
  The protocol's script-locked lovelace as one ledger: every client's Receiver, the shared PaymentHook, the pairs,
  the deposit addresses, the published reference scripts and the Config UTxO. One step per transaction command.
  A step computes the next datum and the lovelace its transaction pays to the script, as the builder does.
 */
module FeeLedger {
  import opened Prelude
  import opened Folds
  import opened Deposits

  /** The units of a Receiver and of a Pair, whose policy is one client's own, and the name of a reference script. */
  datatype ClientId = ClientId(receiverUnit: string)
  datatype PairId = PairId(client: ClientId, pairUnit: string)
  datatype RefId = RefId(name: string)

  datatype ReceiverState = ReceiverState(balance: int, accrued: int, minUtxo: int)
  datatype ReceiverUtxo = ReceiverUtxo(state: ReceiverState, lovelace: int)

  datatype HookState = HookState(withdrawAddress: string, accrued: int, collected: int, withdrawn: int, minUtxo: int)
  datatype HookUtxo = HookUtxo(state: HookState, lovelace: int)

  /** A published oracle value with the two numbers that order it, all signed as unsigned integers. */
  datatype Quote = Quote(price: nat, timestamp: nat, nonce: nat)

  datatype PairUtxo = PairUtxo(unit: PairId, lovelace: int, quote: Quote)

  /** Config values the commands use. `maxPerFold` is 0 for deployments that never set it. */
  datatype Params = Params(
    baseFee: int, perPairFee: int, minUtxo: int, depositMin: int, maxPerMerge: int, maxPerFold: int,
    maxDrift: int)

  /** What has happened so far, for stating properties of whole runs. No command reads it. */
  datatype Books = Books(
    fees: int,                        // protocol fees ever charged, over all clients
    retired: int,                     // lifetime collections of a hook that has been burned
    paidIn: int,                      // lovelace that wallets have put under the scripts
    paidOut: int,                     // lovelace that has come back out
    accounts: map<ClientId, Account>)

  /** One client's top-ups and swept deposits, withdrawals and protocol fees. */
  datatype Account = Account(credited: int, withdrawn: int, charged: int)

  datatype Ledger = Ledger(
    params: Params,
    config: Option<int>,              // lovelace of the Config UTxO while its NFT lives
    hook: Option<HookUtxo>,
    receivers: map<ClientId, ReceiverUtxo>,
    bootstrapped: set<ClientId>,      // units whose one-shot bootstrap input has been spent
    pairs: map<nat, PairUtxo>,        // the live pair UTxOs, by the number of the output
    pairOutputs: nat,                 // pair outputs paid so far; the next one gets this number
    deposits: map<ClientId, seq<Deposit>>,
    references: map<RefId, int>,
    books: Books)

  datatype Rejection =
    | NoConfig | NoHook | NoReceiver | NoPair | NotSingle | NoReference
    | AlreadyExists | NotPositive | Insufficient | NothingEligible | NothingToSettle | NotDrained | NotStale
    | DuplicateEntry | ForeignPair | ForeignListing | InvalidParams
    | Expired | Superseded | TooOld | NoWindow

  /**
    One pair of an oracle update, with the value and the expiry (in seconds) of its signed intent. `isCreate` says that
    the caller has no local file for the pair, not that no such pair is live.
   */
  datatype Entry = Entry(pair: PairId, isCreate: bool, quote: Quote, expiry: nat)

  /** What an update knows about time, in milliseconds: the chain's clock and the start of its own validity. */
  datatype Clock = Clock(nowMs: nat, validFrom: nat)

  datatype Action =
    | BootstrapReceiver(client: ClientId, minUtxo: int)
    | TopUp(client: ClientId, amount: int)
    | FundDeposit(client: ClientId, deposit: Deposit)
    | MergeDeposits(client: ClientId, listing: seq<Deposit>)
    | Update(client: ClientId, entries: seq<Entry>, listing: seq<Deposit>, clock: Clock)
    | Settle(clients: seq<ClientId>)
    | ReceiverWithdraw(client: ClientId, amount: int)
    | ReceiverUpdateMinUtxo(client: ClientId, minUtxo: int)
    | HookWithdraw(amount: int)
    | HookUpdate(withdrawAddress: Option<string>, newMinUtxo: Option<int>)
    | PairUpdateMinUtxo(pair: PairId, minUtxo: int)
    | ConfigUpdate(params: Params)
    | PublishReference(ref: RefId, lovelace: int)
    | BurnPair(pair: PairId)
    | BurnDuplicate(number: nat)
    | BurnReceiver(client: ClientId)
    | BurnHook
    | ReclaimReference(ref: RefId)
    | BurnConfig

  // ----- the pieces that the steps share

  function AccountOf(b: Books, c: ClientId): Account {
    if c in b.accounts then b.accounts[c] else Account(0, 0, 0)
  }

  function Book(b: Books, c: ClientId, credit: int, withdrawal: int, charge: int): Books {
    var a := AccountOf(b, c);
    b.(accounts := b.accounts[c := Account(a.credited + credit, a.withdrawn + withdrawal, a.charged + charge)])
  }

  /** The Receiver output every builder pays: the datum and exactly its min-ADA, balance and accrued fees. */
  function ReceiverOutput(s: ReceiverState): ReceiverUtxo {
    ReceiverUtxo(s, s.minUtxo + s.balance + s.accrued)
  }

  function HookOutput(s: HookState): HookUtxo {
    HookUtxo(s, s.minUtxo + s.accrued)
  }

  function DepositsOf(l: Ledger, c: ClientId): seq<Deposit> {
    if c in l.deposits then l.deposits[c] else []
  }

  /** protocol_fee(N) = base + N * perPair */
  function ProtocolFee(p: Params, pairs: nat): int {
    p.baseFee + pairs * p.perPairFee
  }

  /** The wallet pays the difference when an output grows and receives it when the output shrinks. */
  function Move(b: Books, before: int, after: int): Books {
    b.(paidIn := b.paidIn + Max(0, after - before), paidOut := b.paidOut + Max(0, before - after))
  }

  // ----- steps that concern one Receiver

  /** A Receiver's minting policy consumes one fixed output, so a unit can be bootstrapped once and never again. */
  function BootstrapReceiverStep(l: Ledger, c: ClientId, minUtxo: int): Result<Ledger, Rejection> {
    if l.config.None? then Err(NoConfig)
    else if c in l.receivers || c in l.bootstrapped then Err(AlreadyExists)
    else if minUtxo <= 0 then Err(NotPositive)
    else
      Ok(l.(receivers := l.receivers[c := ReceiverOutput(ReceiverState(0, 0, minUtxo))],
            bootstrapped := l.bootstrapped + {c},
            books := l.books.(paidIn := l.books.paidIn + minUtxo)))
  }

  function TopUpStep(l: Ledger, c: ClientId, amount: int): Result<Ledger, Rejection> {
    if c !in l.receivers then Err(NoReceiver)
    else if amount <= 0 then Err(NotPositive)
    else
      var s := l.receivers[c].state;
      Ok(l.(receivers := l.receivers[c := ReceiverOutput(s.(balance := s.balance + amount))],
            books := Book(l.books, c, amount, 0, 0).(paidIn := l.books.paidIn + amount)))
  }

  function FundDepositStep(l: Ledger, c: ClientId, d: Deposit): Result<Ledger, Rejection> {
    if d.lovelace <= 0 then Err(NotPositive)
    else
      Ok(l.(deposits := l.deposits[c := DepositsOf(l, c) + [d]],
            books := l.books.(paidIn := l.books.paidIn + d.lovelace)))
  }

  /** `listing` is the order in which the provider lists the deposit address. */
  function MergeStep(l: Ledger, c: ClientId, listing: seq<Deposit>): Result<Ledger, Rejection> {
    if c !in l.receivers then Err(NoReceiver)
    else if multiset(listing) != multiset(DepositsOf(l, c)) then Err(ForeignListing)
    else
      var s := l.receivers[c].state;
      var merged := Merge(s.balance, listing, l.params.depositMin, l.params.maxPerMerge);
      if merged.Err? then Err(Rejection.NothingEligible)
      else
        Ok(l.(receivers := l.receivers[c := ReceiverOutput(s.(balance := merged.value.balance))],
              deposits := l.deposits[c := merged.value.left],
              books := Book(l.books, c, merged.value.balance - s.balance, 0, 0)))
  }

  function WithdrawStep(l: Ledger, c: ClientId, amount: int): Result<Ledger, Rejection> {
    if l.config.None? then Err(NoConfig)
    else if c !in l.receivers then Err(NoReceiver)
    else if amount <= 0 then Err(NotPositive)
    else
      var s := l.receivers[c].state;
      if amount > s.balance then Err(Insufficient)
      else
        Ok(l.(receivers := l.receivers[c := ReceiverOutput(s.(balance := s.balance - amount))],
              books := Book(l.books, c, 0, amount, 0).(paidOut := l.books.paidOut + amount)))
  }

  function ReceiverMinStep(l: Ledger, c: ClientId, minUtxo: int): Result<Ledger, Rejection> {
    if minUtxo <= 0 then Err(NotPositive)
    else if l.config.None? then Err(NoConfig)
    else if c !in l.receivers then Err(NoReceiver)
    else
      var s := l.receivers[c].state;
      Ok(l.(receivers := l.receivers[c := ReceiverOutput(s.(minUtxo := minUtxo))],
            books := Move(l.books, s.minUtxo, minUtxo)))
  }

  function BurnReceiverStep(l: Ledger, c: ClientId): Result<Ledger, Rejection> {
    if l.config.None? then Err(NoConfig)
    else if c !in l.receivers then Err(NoReceiver)
    else
      var u := l.receivers[c];
      if u.state.balance != 0 || u.state.accrued != 0 then Err(NotDrained)
      else
        Ok(l.(receivers := l.receivers - {c},
              books := l.books.(paidOut := l.books.paidOut + u.lovelace)))
  }

  // ----- pair UTxOs

  /** The pair UTxOs that carry one unit. Nothing on chain keeps a unit from having several. */
  function Live(l: Ledger, p: PairId): set<nat> {
    set i | i in l.pairs && l.pairs[i].unit == p
  }

  lemma OneMember<T>(s: set<T>, x: T, y: T)
    requires |s| == 1 && x in s && y in s
    ensures x == y
  {
    assert |s - {x}| == 0;
  }

  /** How a command resolves a unit: there must be one UTxO that carries it, and only one. */
  function Sole(l: Ledger, p: PairId): (r: Option<nat>)
    ensures r.Some? ==> r.value in l.pairs && l.pairs[r.value].unit == p
    ensures r.Some? ==> forall i :: i in l.pairs && l.pairs[i].unit == p ==> i == r.value
  {
    var live := Live(l, p);
    if |live| != 1 then None
    else
      assert forall i, j :: i in live && j in live ==> i == j by {
        forall i, j | i in live && j in live
          ensures i == j
        {
          OneMember(live, i, j);
        }
      }
      assert live != {};
      var i :| i in live;
      assert forall j :: j in l.pairs && l.pairs[j].unit == p ==> j in live;
      Some(i)
  }

  // ----- oracle updates

  predicate DistinctEntries(entries: seq<Entry>) {
    forall i, j :: 0 <= i < j < |entries| ==> entries[i].pair != entries[j].pair
  }

  /** An intent must beat the pair's current value in both numbers. */
  predicate IsNewer(q: Quote, current: Quote) {
    q.timestamp > current.timestamp && q.nonce > current.nonce
  }

  /** The check of the command, in seconds. An expiry of 0 counts as "never". */
  predicate IsExpired(e: Entry, nowMs: nat) {
    e.expiry != 0 && nowMs / 1000 > e.expiry
  }

  /** Every entry that updates has one UTxO to spend. */
  predicate Resolved(l: Ledger, entries: seq<Entry>) {
    forall i :: 0 <= i < |entries| && !entries[i].isCreate ==> Sole(l, entries[i].pair).Some?
  }

  /** An update must beat the live value. A create is compared with nothing, whatever else carries its unit. */
  predicate IsSuperseded(l: Ledger, e: Entry) {
    !e.isCreate && match Sole(l, e.pair) case None => false case Some(i) => !IsNewer(e.quote, l.pairs[i].quote)
  }

  /** Instead, the coordinator bounds the age of a first value against the start of the transaction's validity. */
  predicate WithinDrift(p: Params, q: Quote, validFrom: nat) {
    q.timestamp * 1000 >= validFrom - p.maxDrift * 1000
  }

  function EarliestExpiry(entries: seq<Entry>): nat
    requires entries != []
  {
    var last := entries[|entries| - 1].expiry;
    if |entries| == 1 then last else Min(EarliestExpiry(entries[..|entries| - 1]), last)
  }

  /** The end of the validity range: half an hour from now, or a minute before the first intent expires. */
  function ValidTo(entries: seq<Entry>, nowMs: nat): int
    requires entries != []
  {
    Min(nowMs + 30 * 60000, EarliestExpiry(entries) * 1000 - 60000)
  }

  /** The guards of an update that come before its money, in order. The last two are the chain's. */
  function UpdateRefusal(l: Ledger, c: ClientId, entries: seq<Entry>, clock: Clock): (r: Option<Rejection>)
    ensures r.None? ==> c in l.receivers && Resolved(l, entries)
  {
    if l.hook.None? then Some(NoHook)
    else if l.config.None? then Some(NoConfig)
    else if c !in l.receivers then Some(NoReceiver)
    else if entries == [] || !DistinctEntries(entries) then Some(DuplicateEntry)
    else if exists i :: 0 <= i < |entries| && entries[i].pair.client != c then Some(ForeignPair)
    else if exists i :: 0 <= i < |entries| && IsExpired(entries[i], clock.nowMs) then Some(Expired)
    else if !Resolved(l, entries) then Some(NotSingle)
    else if exists i :: 0 <= i < |entries| && IsSuperseded(l, entries[i]) then Some(Superseded)
    else if !(clock.validFrom <= clock.nowMs < ValidTo(entries, clock.nowMs)) then Some(NoWindow)
    else if exists i :: 0 <= i < |entries| && entries[i].isCreate
                        && !WithinDrift(l.params, entries[i].quote, clock.validFrom) then Some(TooOld)
    else None
  }

  /** A created pair holds the configured minimum, an updated one keeps what it held; both carry the new value. */
  function PairOutput(l: Ledger, e: Entry): PairUtxo
    requires e.isCreate || Sole(l, e.pair).Some?
  {
    if e.isCreate then PairUtxo(e.pair, l.params.minUtxo, e.quote)
    else l.pairs[Sole(l, e.pair).value].(quote := e.quote)
  }

  /** Updated pairs are spent, created ones are minted beside whatever is live; every entry pays one new output. */
  function PayPairs(l: Ledger, entries: seq<Entry>): map<nat, PairUtxo>
    requires Resolved(l, entries)
  {
    if entries == [] then l.pairs
    else
      var n := |entries| - 1;
      var e := entries[n];
      var paid := PayPairs(l, entries[..n]);
      var kept := if e.isCreate then paid else paid - {Sole(l, e.pair).value};
      kept[l.pairOutputs + n := PairOutput(l, e)]
  }

  function Creations(entries: seq<Entry>): nat {
    if entries == [] then 0
    else Creations(entries[..|entries| - 1]) + if entries[|entries| - 1].isCreate then 1 else 0
  }

  function UpdateStep(l: Ledger, c: ClientId, entries: seq<Entry>, listing: seq<Deposit>, clock: Clock)
    : Result<Ledger, Rejection>
  {
    var refusal := UpdateRefusal(l, c, entries, clock);
    if refusal.Some? then Err(refusal.value)
    else if listing != [] && multiset(listing) != multiset(DepositsOf(l, c)) then Err(ForeignListing)
    else
      var s := l.receivers[c].state;
      var fee := ProtocolFee(l.params, |entries|);
      var folded := Select(listing, l.params.depositMin, l.params.maxPerFold);
      var swept := TotalOf(folded);
      var next := s.(balance := s.balance - fee + swept, accrued := s.accrued + fee);
      if next.balance < 0 then Err(Insufficient)
      else
        Ok(l.(receivers := l.receivers[c := ReceiverOutput(next)],
              pairs := PayPairs(l, entries),
              pairOutputs := l.pairOutputs + |entries|,
              deposits := if listing == [] then l.deposits
                          else l.deposits[c := Leftover(listing, l.params.depositMin, |folded|)],
              books := Book(l.books, c, swept, 0, fee).(
                         fees := l.books.fees + fee,
                         paidIn := l.books.paidIn + Creations(entries) * l.params.minUtxo)))
  }

  // ----- steps that concern the hook

  /** The Receivers with the accrued fees of `clients` drained to zero. */
  function Drained(receivers: map<ClientId, ReceiverUtxo>, clients: seq<ClientId>): map<ClientId, ReceiverUtxo> {
    if clients == [] then receivers
    else
      var rest := Drained(receivers, clients[1..]);
      if clients[0] in rest
      then rest[clients[0] := ReceiverOutput(rest[clients[0]].state.(accrued := 0))]
      else rest
  }

  function AccruedOf(receivers: map<ClientId, ReceiverUtxo>, clients: seq<ClientId>): int {
    if clients == [] then 0
    else
      (if clients[0] in receivers then receivers[clients[0]].state.accrued else 0)
      + AccruedOf(receivers, clients[1..])
  }

  function SettleStep(l: Ledger, clients: seq<ClientId>): Result<Ledger, Rejection> {
    if clients == [] then Err(NothingToSettle)
    else if exists i, j :: 0 <= i < j < |clients| && clients[i] == clients[j] then Err(DuplicateEntry)
    else if l.hook.None? then Err(NoHook)
    else if exists i :: 0 <= i < |clients| && clients[i] !in l.receivers then Err(NoReceiver)
    else if l.config.None? then Err(NoConfig)
    else if exists i :: 0 <= i < |clients| && l.receivers[clients[i]].state.accrued <= 0 then Err(NothingToSettle)
    else
      var total := AccruedOf(l.receivers, clients);
      var h := l.hook.value.state;
      Ok(l.(receivers := Drained(l.receivers, clients),
            hook := Some(HookOutput(h.(accrued := h.accrued + total, collected := h.collected + total)))))
  }

  function HookWithdrawStep(l: Ledger, amount: int): Result<Ledger, Rejection> {
    if l.config.None? then Err(NoConfig)
    else if l.hook.None? then Err(NoHook)
    else if amount <= 0 then Err(NotPositive)
    else
      var h := l.hook.value.state;
      if amount > h.accrued then Err(Insufficient)
      else
        Ok(l.(hook := Some(HookOutput(h.(accrued := h.accrued - amount, withdrawn := h.withdrawn + amount))),
              books := l.books.(paidOut := l.books.paidOut + amount)))
  }

  function HookUpdateStep(l: Ledger, withdrawAddress: Option<string>, newMinUtxo: Option<int>)
    : Result<Ledger, Rejection>
  {
    if l.config.None? then Err(NoConfig)
    else if l.hook.None? then Err(NoHook)
    else
      var h := l.hook.value.state;
      var next := h.(withdrawAddress := if withdrawAddress.Some? then withdrawAddress.value else h.withdrawAddress,
                     minUtxo := if newMinUtxo.Some? then newMinUtxo.value else h.minUtxo);
      if next.minUtxo <= 0 then Err(NotPositive)
      else Ok(l.(hook := Some(HookOutput(next)), books := Move(l.books, h.minUtxo, next.minUtxo)))
  }

  function BurnHookStep(l: Ledger): Result<Ledger, Rejection> {
    if l.config.None? then Err(NoConfig)
    else if l.hook.None? then Err(NoHook)
    else if l.hook.value.state.accrued != 0 then Err(NotDrained)
    else
      Ok(l.(hook := None,
            books := l.books.(retired := l.books.retired + l.hook.value.state.collected,
                              paidOut := l.books.paidOut + l.hook.value.lovelace)))
  }

  // ----- the remaining UTxOs

  function PairMinStep(l: Ledger, p: PairId, minUtxo: int): Result<Ledger, Rejection> {
    if minUtxo <= 0 then Err(NotPositive)
    else if l.config.None? then Err(NoConfig)
    else if Sole(l, p).None? then Err(NotSingle)
    else
      var i := Sole(l, p).value;
      Ok(l.(pairs := (l.pairs - {i})[l.pairOutputs := l.pairs[i].(lovelace := minUtxo)],
            pairOutputs := l.pairOutputs + 1,
            books := Move(l.books, l.pairs[i].lovelace, minUtxo)))
  }

  function WithoutPair(l: Ledger, i: nat): Ledger
    requires i in l.pairs
  {
    l.(pairs := l.pairs - {i}, books := l.books.(paidOut := l.books.paidOut + l.pairs[i].lovelace))
  }

  function BurnPairStep(l: Ledger, p: PairId): Result<Ledger, Rejection> {
    if l.config.None? then Err(NoConfig)
    else if Sole(l, p).None? then Err(NotSingle)
    else Ok(WithoutPair(l, Sole(l, p).value))
  }

  /** Another UTxO of the same unit is at least as recent. */
  predicate HasRival(l: Ledger, i: nat)
    requires i in l.pairs
  {
    exists j :: j in l.pairs && j != i && l.pairs[j].unit == l.pairs[i].unit
                && l.pairs[j].quote.nonce >= l.pairs[i].quote.nonce
  }

  /** One burn of the repair command, which spends a given UTxO but never the most recent of its unit. */
  function BurnDuplicateStep(l: Ledger, i: nat): Result<Ledger, Rejection> {
    if l.config.None? then Err(NoConfig)
    else if i !in l.pairs then Err(NoPair)
    else if !HasRival(l, i) then Err(NotStale)
    else Ok(WithoutPair(l, i))
  }

  predicate ValidParams(p: Params) {
    0 <= p.baseFee && 0 <= p.perPairFee && 0 < p.minUtxo
  }

  function ConfigUpdateStep(l: Ledger, params: Params): Result<Ledger, Rejection> {
    if l.config.None? then Err(NoConfig)
    else if !ValidParams(params) then Err(InvalidParams)
    else
      Ok(l.(params := params, config := Some(params.minUtxo),
            books := Move(l.books, l.config.value, params.minUtxo)))
  }

  function PublishStep(l: Ledger, r: RefId, lovelace: int): Result<Ledger, Rejection> {
    if r in l.references then Err(AlreadyExists)
    else if lovelace <= 0 then Err(NotPositive)
    else
      Ok(l.(references := l.references[r := lovelace],
            books := l.books.(paidIn := l.books.paidIn + lovelace)))
  }

  function ReclaimStep(l: Ledger, r: RefId): Result<Ledger, Rejection> {
    if l.config.None? then Err(NoConfig)
    else if r !in l.references then Err(NoReference)
    else
      Ok(l.(references := l.references - {r},
            books := l.books.(paidOut := l.books.paidOut + l.references[r])))
  }

  /** No guard on the rest of the deployment: the command burns the Config whatever else is still live. */
  function BurnConfigStep(l: Ledger): Result<Ledger, Rejection> {
    if l.config.None? then Err(NoConfig)
    else Ok(l.(config := None, books := l.books.(paidOut := l.books.paidOut + l.config.value)))
  }

  function Step(l: Ledger, a: Action): Result<Ledger, Rejection> {
    match a
    case BootstrapReceiver(c, minUtxo) => BootstrapReceiverStep(l, c, minUtxo)
    case TopUp(c, amount) => TopUpStep(l, c, amount)
    case FundDeposit(c, d) => FundDepositStep(l, c, d)
    case MergeDeposits(c, listing) => MergeStep(l, c, listing)
    case Update(c, entries, listing, clock) => UpdateStep(l, c, entries, listing, clock)
    case Settle(clients) => SettleStep(l, clients)
    case ReceiverWithdraw(c, amount) => WithdrawStep(l, c, amount)
    case ReceiverUpdateMinUtxo(c, minUtxo) => ReceiverMinStep(l, c, minUtxo)
    case HookWithdraw(amount) => HookWithdrawStep(l, amount)
    case HookUpdate(address, newMinUtxo) => HookUpdateStep(l, address, newMinUtxo)
    case PairUpdateMinUtxo(p, minUtxo) => PairMinStep(l, p, minUtxo)
    case ConfigUpdate(params) => ConfigUpdateStep(l, params)
    case PublishReference(r, lovelace) => PublishStep(l, r, lovelace)
    case BurnPair(p) => BurnPairStep(l, p)
    case BurnDuplicate(i) => BurnDuplicateStep(l, i)
    case BurnReceiver(c) => BurnReceiverStep(l, c)
    case BurnHook => BurnHookStep(l)
    case ReclaimReference(r) => ReclaimStep(l, r)
    case BurnConfig => BurnConfigStep(l)
  }

  function Run(l: Ledger, actions: seq<Action>): Result<Ledger, Rejection>
    decreases |actions|
  {
    if actions == [] then Ok(l)
    else
      var next :- Step(l, actions[0]);
      Run(next, actions[1..])
  }
}

/** The on-chain datums as Plutus Data trees: encoders (core/chain-helpers.ts), decoders (core/datum-decoders.ts). */
module Datums {
  import opened Prelude
  import opened HexCodec
  import opened Decimals

  datatype Data = Constr(tag: nat, fields: seq<Data>) | I(value: int) | B(bytes: seq<Byte>) | L(items: seq<Data>)

  datatype DatumError = BadNumber | BadHex | BadShape

  // ----- fields

  /** How a field is encoded: `BigInt(text)`, `normalizeHex(text)`, or handed to the codec as it is. */
  datatype Kind = Decimal | Hex | Verbatim

  /** The codec's own reading of hex text: letters of either case, but no blanks and no prefix. */
  function HexBytes(text: string): Result<seq<Byte>, DatumError> {
    if IsHex(Lower(text)) then Ok(HexCodec.Decode(Lower(text))) else Err(BadHex)
  }

  function EncodeField(k: Kind, text: string): Result<Data, DatumError> {
    match k
    case Decimal => if ParseBigInt(text).Ok? then Ok(I(ParseBigInt(text).value)) else Err(BadNumber)
    case Hex => if NormalizeHex(text).Ok? then Ok(B(HexCodec.Decode(NormalizeHex(text).value))) else Err(BadHex)
    case Verbatim =>
      var bytes :- HexBytes(text);
      Ok(B(bytes))
  }

  /** The codec hands a byte string back as hex text, which `BigInt` reads as digits and `normalizeHex` as hex. */
  function DecodeField(k: Kind, d: Data): Result<string, DatumError> {
    match d
    case I(n) => if k.Decimal? then Ok(ToDecimal(n)) else Err(BadShape)
    case B(bytes) =>
      if k.Decimal? then
        if Canonical(Encode(bytes)).Ok? then Ok(Canonical(Encode(bytes)).value) else Err(BadNumber)
      else if NormalizeHex(Encode(bytes)).Ok? then Ok(NormalizeHex(Encode(bytes)).value)
      else Err(BadHex)
    case _ => Err(BadShape)
  }

  /** The canonical text of a field: a plain decimal, or lower-case hex. */
  function CanonField(k: Kind, text: string): Result<string, DatumError> {
    match k
    case Decimal => if Canonical(text).Ok? then Ok(Canonical(text).value) else Err(BadNumber)
    case Hex => if NormalizeHex(text).Ok? then Ok(NormalizeHex(text).value) else Err(BadHex)
    case Verbatim => if IsHex(Lower(text)) then Ok(Lower(text)) else Err(BadHex)
  }

  lemma NormalizedIsHex(text: string)
    ensures NormalizeHex(text).Ok? ==> IsHex(NormalizeHex(text).value)
  {
  }

  /** Normalized hex is what both ways of writing it agree on, and what its bytes are read back as. */
  lemma NormalHex(h: string)
    requires IsHex(h)
    ensures NormalizeHex(h) == Ok(h) && Lower(h) == h && Encode(HexCodec.Decode(h)) == h
  {
    NormalFormsAreFixed(h);
    assert forall i :: 0 <= i < |h| ==> LowerChar(h[i]) == h[i];
    EncodeDecode(h);
  }

  lemma DecimalField(text: string)
    requires EncodeField(Decimal, text).Ok?
    ensures CanonField(Decimal, text).Ok?
    ensures var c := CanonField(Decimal, text).value;
      && DecodeField(Decimal, EncodeField(Decimal, text).value) == Ok(c)
      && CanonField(Decimal, c) == Ok(c) && EncodeField(Decimal, c) == EncodeField(Decimal, text)
  {
    ParseToDecimal(ParseBigInt(text).value);
  }

  lemma HexField(text: string)
    requires EncodeField(Hex, text).Ok?
    ensures CanonField(Hex, text).Ok?
    ensures var c := CanonField(Hex, text).value;
      && DecodeField(Hex, EncodeField(Hex, text).value) == Ok(c)
      && CanonField(Hex, c) == Ok(c) && EncodeField(Hex, c) == EncodeField(Hex, text)
  {
    hide NormalizeHex, HexCodec.Decode, Encode, Lower;
    NormalizedIsHex(text);
    NormalHex(NormalizeHex(text).value);
  }

  lemma VerbatimField(text: string)
    requires EncodeField(Verbatim, text).Ok?
    ensures CanonField(Verbatim, text).Ok?
    ensures var c := CanonField(Verbatim, text).value;
      && DecodeField(Verbatim, EncodeField(Verbatim, text).value) == Ok(c)
      && CanonField(Verbatim, c) == Ok(c) && EncodeField(Verbatim, c) == EncodeField(Verbatim, text)
  {
    hide NormalizeHex, HexCodec.Decode, Encode, Lower;
    NormalHex(Lower(text));
  }

  /** Whatever can be written is read back as its canonical text, and the canonical text is written the same way. */
  lemma FieldRoundTrip(k: Kind, text: string)
    ensures EncodeField(k, text).Ok? <==> CanonField(k, text).Ok?
    ensures EncodeField(k, text).Ok? ==>
      var c := CanonField(k, text).value;
      && DecodeField(k, EncodeField(k, text).value) == Ok(c)
      && CanonField(k, c) == Ok(c) && EncodeField(k, c) == EncodeField(k, text)
  {
    SameDomain(k, text);
    if EncodeField(k, text).Ok? {
      match k
      case Decimal => DecimalField(text);
      case Hex => HexField(text);
      case Verbatim => VerbatimField(text);
    }
  }

  lemma SameDomain(k: Kind, text: string)
    ensures EncodeField(k, text).Ok? <==> CanonField(k, text).Ok?
  {
  }

  function EncodeAll(kinds: seq<Kind>, texts: seq<string>): Result<seq<Data>, DatumError>
    requires |kinds| == |texts|
    decreases |texts|
  {
    if kinds == [] then Ok([])
    else
      var first :- EncodeField(kinds[0], texts[0]);
      var rest :- EncodeAll(kinds[1..], texts[1..]);
      Ok([first] + rest)
  }

  function DecodeAll(kinds: seq<Kind>, fields: seq<Data>): Result<seq<string>, DatumError>
    requires |kinds| == |fields|
    decreases |fields|
  {
    if kinds == [] then Ok([])
    else
      var first :- DecodeField(kinds[0], fields[0]);
      var rest :- DecodeAll(kinds[1..], fields[1..]);
      Ok([first] + rest)
  }

  function CanonAll(kinds: seq<Kind>, texts: seq<string>): Result<seq<string>, DatumError>
    requires |kinds| == |texts|
    decreases |texts|
  {
    if kinds == [] then Ok([])
    else
      var first :- CanonField(kinds[0], texts[0]);
      var rest :- CanonAll(kinds[1..], texts[1..]);
      Ok([first] + rest)
  }

  lemma {:induction false} AllLengths(kinds: seq<Kind>, texts: seq<string>)
    requires |kinds| == |texts|
    ensures EncodeAll(kinds, texts).Ok? ==> |EncodeAll(kinds, texts).value| == |kinds|
    ensures CanonAll(kinds, texts).Ok? ==> |CanonAll(kinds, texts).value| == |kinds|
    decreases |kinds|
  {
    if kinds != [] {
      AllLengths(kinds[1..], texts[1..]);
    }
  }

  /** For every list of fields that can be written: decoding gives the canonical texts, which are written alike. */
  lemma {:induction false} AllRoundTrip(kinds: seq<Kind>, texts: seq<string>)
    requires |kinds| == |texts|
    ensures EncodeAll(kinds, texts).Ok? <==> CanonAll(kinds, texts).Ok?
    ensures EncodeAll(kinds, texts).Ok? ==>
      var fields, c := EncodeAll(kinds, texts).value, CanonAll(kinds, texts).value;
      && |fields| == |kinds| == |c| && DecodeAll(kinds, fields) == Ok(c)
      && CanonAll(kinds, c) == Ok(c) && EncodeAll(kinds, c) == EncodeAll(kinds, texts)
    decreases |kinds|
  {
    if kinds != [] {
      FieldRoundTrip(kinds[0], texts[0]);
      AllRoundTrip(kinds[1..], texts[1..]);
      if EncodeAll(kinds, texts).Ok? {
        var first, rest := EncodeField(kinds[0], texts[0]).value, EncodeAll(kinds[1..], texts[1..]).value;
        var c, cs := CanonField(kinds[0], texts[0]).value, CanonAll(kinds[1..], texts[1..]).value;
        assert ([first] + rest)[1..] == rest && ([c] + cs)[1..] == cs;
      }
    }
  }

  /** Each text is the canonical one of its field. */
  predicate IsCanonical(kinds: seq<Kind>, texts: seq<string>)
    requires |kinds| == |texts|
  {
    forall k :: 0 <= k < |kinds| ==> CanonField(kinds[k], texts[k]) == Ok(texts[k])
  }

  /** Texts are canonical one by one exactly when their list is its own canonical form. */
  lemma {:induction false} CanonicalFieldwise(kinds: seq<Kind>, texts: seq<string>)
    requires |kinds| == |texts|
    ensures IsCanonical(kinds, texts) <==> CanonAll(kinds, texts) == Ok(texts)
    decreases |kinds|
  {
    hide CanonField;
    if kinds != [] {
      CanonicalFieldwise(kinds[1..], texts[1..]);
      assert texts == [texts[0]] + texts[1..];
      if CanonAll(kinds, texts) == Ok(texts) {
        assert CanonAll(kinds, texts).value[1..] == texts[1..];
        assert CanonAll(kinds, texts).value[0] == texts[0];
        forall k | 0 <= k < |kinds|
          ensures CanonField(kinds[k], texts[k]) == Ok(texts[k])
        {
          assert k > 0 ==> kinds[k] == kinds[1..][k - 1] && texts[k] == texts[1..][k - 1];
        }
      }
      if IsCanonical(kinds, texts) {
        forall k | 0 <= k < |kinds[1..]|
          ensures CanonField(kinds[1..][k], texts[1..][k]) == Ok(texts[1..][k])
        {
          assert kinds[1..][k] == kinds[k + 1] && texts[1..][k] == texts[k + 1];
        }
      }
    }
  }

  /** Two lists of texts are written alike exactly when their canonical texts agree. */
  lemma AllInjective(kinds: seq<Kind>, a: seq<string>, b: seq<string>)
    requires |kinds| == |a| == |b| && EncodeAll(kinds, a).Ok? && EncodeAll(kinds, b).Ok?
    ensures EncodeAll(kinds, a) == EncodeAll(kinds, b) <==> CanonAll(kinds, a) == CanonAll(kinds, b)
  {
    AllRoundTrip(kinds, a);
    AllRoundTrip(kinds, b);
  }

  /** Destructuring `fields`: missing ones are undefined, extra ones are ignored, the tag is not looked at. */
  function Fields(d: Data, from: nat, n: nat): Result<seq<Data>, DatumError> {
    if d.Constr? && |d.fields| >= from + n then Ok(d.fields[from..from + n]) else Err(BadShape)
  }

  // ----- Receiver

  datatype ReceiverText = ReceiverText(balance: string, accrued: string, minUtxo: string)

  const RECEIVER: seq<Kind> := [Decimal, Decimal, Decimal]

  function ReceiverTexts(s: ReceiverText): (t: seq<string>)
    ensures |t| == 3
  {
    [s.balance, s.accrued, s.minUtxo]
  }

  function ReceiverOf(t: seq<string>): (s: ReceiverText)
    requires |t| == 3
    ensures ReceiverTexts(s) == t
  {
    ReceiverText(t[0], t[1], t[2])
  }

  function BuildReceiver(s: ReceiverText): Result<Data, DatumError> {
    var fields :- EncodeAll(RECEIVER, ReceiverTexts(s));
    Ok(Constr(0, fields))
  }

  function DecodeReceiver(d: Data): Result<ReceiverText, DatumError> {
    var fields :- Fields(d, 0, 3);
    var texts :- DecodeAll(RECEIVER, fields);
    DecodeLength(RECEIVER, fields);
    Ok(ReceiverOf(texts))
  }

  lemma {:induction false} DecodeLength(kinds: seq<Kind>, fields: seq<Data>)
    requires |kinds| == |fields|
    ensures DecodeAll(kinds, fields).Ok? ==> |DecodeAll(kinds, fields).value| == |kinds|
    decreases |kinds|
  {
    if kinds != [] {
      DecodeLength(kinds[1..], fields[1..]);
    }
  }

  /** A state whose texts all are canonical. */
  predicate CanonicalReceiver(s: ReceiverText) {
    IsCanonical(RECEIVER, ReceiverTexts(s))
  }

  /** Decoding what was built gives the canonical texts, which build the same datum and decode to themselves. */
  lemma ReceiverRoundTrip(s: ReceiverText)
    requires BuildReceiver(s).Ok?
    ensures DecodeReceiver(BuildReceiver(s).value).Ok?
    ensures var c := DecodeReceiver(BuildReceiver(s).value).value;
      && Ok(ReceiverTexts(c)) == CanonAll(RECEIVER, ReceiverTexts(s)) && CanonicalReceiver(c)
      && BuildReceiver(c) == BuildReceiver(s)
  {
    AllRoundTrip(RECEIVER, ReceiverTexts(s));
    CanonicalFieldwise(RECEIVER, CanonAll(RECEIVER, ReceiverTexts(s)).value);
    var fields := EncodeAll(RECEIVER, ReceiverTexts(s)).value;
    assert fields[0..3] == fields;
  }

  // ----- PaymentHook

  datatype Credential<H> = KeyHash(hash: H) | ScriptHash(hash: H)

  /** What the library reads out of an address; its hashes are bytes. */
  datatype Address = Address(payment: Option<Credential<seq<Byte>>>, stake: Option<Credential<seq<Byte>>>)

  datatype HookText = HookText(
    withdrawAddress: Address, accrued: string, collected: string, withdrawn: string, minUtxo: string)

  const HOOK: seq<Kind> := [Decimal, Decimal, Decimal, Decimal]

  function HookTexts(s: HookText): (t: seq<string>)
    ensures |t| == 4
  {
    [s.accrued, s.collected, s.withdrawn, s.minUtxo]
  }

  function CredentialData(c: Credential<seq<Byte>>): Data {
    match c
    case KeyHash(h) => Constr(0, [B(h)])
    case ScriptHash(h) => Constr(1, [B(h)])
  }

  function AddressData(a: Address): Result<Data, DatumError> {
    if a.payment.None? then Err(BadShape)
    else
      var stake := if a.stake.Some? then Constr(0, [Constr(0, [CredentialData(a.stake.value)])]) else Constr(1, []);
      Ok(Constr(0, [CredentialData(a.payment.value), stake]))
  }

  lemma CredentialDataInjective(c: Credential<seq<Byte>>, d: Credential<seq<Byte>>)
    ensures CredentialData(c) == CredentialData(d) ==> c == d
  {
    if CredentialData(c) == CredentialData(d) {
      assert CredentialData(c).fields[0] == CredentialData(d).fields[0];
    }
  }

  /** Different addresses are encoded differently. */
  lemma AddressDataInjective(a: Address, b: Address)
    requires AddressData(a).Ok? && AddressData(a) == AddressData(b)
    ensures a == b
  {
    var x, y := AddressData(a).value, AddressData(b).value;
    assert x.fields[0] == y.fields[0] && x.fields[1] == y.fields[1];
    CredentialDataInjective(a.payment.value, b.payment.value);
    assert |x.fields[1].fields| == |y.fields[1].fields|;
    if a.stake.Some? {
      assert x.fields[1].fields[0].fields[0] == y.fields[1].fields[0].fields[0];
      CredentialDataInjective(a.stake.value, b.stake.value);
    }
  }

  function BuildHook(s: HookText): Result<Data, DatumError> {
    var address :- AddressData(s.withdrawAddress);
    var fields :- EncodeAll(HOOK, HookTexts(s));
    Ok(Constr(0, [address] + fields))
  }

  /** The address is not read back; the caller supplies the one it knows. */
  function DecodeHook(d: Data, withdrawAddress: Address): Result<HookText, DatumError> {
    var fields :- Fields(d, 1, 4);
    var t :- DecodeAll(HOOK, fields);
    DecodeLength(HOOK, fields);
    Ok(HookText(withdrawAddress, t[0], t[1], t[2], t[3]))
  }

  predicate CanonicalHook(s: HookText) {
    IsCanonical(HOOK, HookTexts(s))
  }

  lemma HookRoundTrip(s: HookText)
    requires BuildHook(s).Ok?
    ensures DecodeHook(BuildHook(s).value, s.withdrawAddress).Ok?
    ensures var c := DecodeHook(BuildHook(s).value, s.withdrawAddress).value;
      && Ok(HookTexts(c)) == CanonAll(HOOK, HookTexts(s)) && c.withdrawAddress == s.withdrawAddress
      && CanonicalHook(c) && BuildHook(c) == BuildHook(s)
  {
    hide EncodeAll, DecodeAll, CanonAll;
    AllRoundTrip(HOOK, HookTexts(s));
    var fields, t := EncodeAll(HOOK, HookTexts(s)).value, CanonAll(HOOK, HookTexts(s)).value;
    CanonicalFieldwise(HOOK, t);
    assert BuildHook(s).value.fields[1..5] == fields;
    var c := HookText(s.withdrawAddress, t[0], t[1], t[2], t[3]);
    assert DecodeHook(BuildHook(s).value, s.withdrawAddress) == Ok(c);
    assert HookTexts(c) == t;
  }

  /** Two canonical hook states have one datum exactly when they are equal, the address included. */
  lemma HookEncodingInjective(a: HookText, b: HookText)
    requires BuildHook(a).Ok? && BuildHook(b).Ok? && CanonicalHook(a) && CanonicalHook(b)
    ensures BuildHook(a) == BuildHook(b) <==> a == b
  {
    if BuildHook(a) == BuildHook(b) {
      var x, y := BuildHook(a).value.fields, BuildHook(b).value.fields;
      assert x[0] == y[0] && x[1..] == y[1..];
      AddressDataInjective(a.withdrawAddress, b.withdrawAddress);
      AllInjective(HOOK, HookTexts(a), HookTexts(b));
      CanonicalFieldwise(HOOK, HookTexts(a));
      CanonicalFieldwise(HOOK, HookTexts(b));
      SameHookTexts(a, b);
    }
  }

  lemma SameHookTexts(a: HookText, b: HookText)
    requires HookTexts(a) == HookTexts(b) && a.withdrawAddress == b.withdrawAddress
    ensures a == b
  {
    assert forall i :: 0 <= i < 4 ==> HookTexts(a)[i] == HookTexts(b)[i];
    assert HookTexts(a)[0] == a.accrued && HookTexts(a)[1] == a.collected && HookTexts(a)[2] == a.withdrawn;
    assert HookTexts(a)[3] == a.minUtxo;
  }

  // ----- Pair

  datatype PairText = PairText(
    pairId: string, price: string, timestamp: string, nonce: string,
    intentHash: string, signer: string, minUtxo: string)

  const PAIR: seq<Kind> := [Verbatim, Decimal, Decimal, Decimal, Hex, Hex, Decimal]

  function PairTexts(s: PairText): (t: seq<string>)
    ensures |t| == 7
  {
    [s.pairId, s.price, s.timestamp, s.nonce, s.intentHash, s.signer, s.minUtxo]
  }

  function PairOf(t: seq<string>): (s: PairText)
    requires |t| == 7
    ensures PairTexts(s) == t
  {
    PairText(t[0], t[1], t[2], t[3], t[4], t[5], t[6])
  }

  function BuildPair(s: PairText): Result<Data, DatumError> {
    var fields :- EncodeAll(PAIR, PairTexts(s));
    Ok(Constr(0, fields))
  }

  function DecodePair(d: Data): Result<PairText, DatumError> {
    var fields :- Fields(d, 0, 7);
    var texts :- DecodeAll(PAIR, fields);
    DecodeLength(PAIR, fields);
    Ok(PairOf(texts))
  }

  predicate CanonicalPair(s: PairText) {
    IsCanonical(PAIR, PairTexts(s))
  }

  /**
    Every pair that can be built reads back canonical, and the canonical state builds the same datum, however the hex
    texts were written. A pair can be built exactly when its canonical texts exist.
   */
  lemma PairRoundTrip(s: PairText)
    ensures BuildPair(s).Ok? <==> CanonAll(PAIR, PairTexts(s)).Ok?
    ensures BuildPair(s).Ok? ==> DecodePair(BuildPair(s).value).Ok?
    ensures BuildPair(s).Ok? ==>
      var c := DecodePair(BuildPair(s).value).value;
      && Ok(PairTexts(c)) == CanonAll(PAIR, PairTexts(s)) && CanonicalPair(c) && BuildPair(c) == BuildPair(s)
  {
    AllRoundTrip(PAIR, PairTexts(s));
    if BuildPair(s).Ok? {
      var fields := EncodeAll(PAIR, PairTexts(s)).value;
      CanonicalFieldwise(PAIR, CanonAll(PAIR, PairTexts(s)).value);
      assert fields[0..7] == fields;
    }
  }

  /** Hex of either case is one byte string, so pair ids that differ in case only give one datum. */
  lemma PairIdCaseIsLost(s: PairText, pairId: string)
    requires BuildPair(s).Ok? && Lower(pairId) == Lower(s.pairId)
    ensures BuildPair(s.(pairId := pairId)) == BuildPair(s)
  {
    var t := s.(pairId := pairId);
    assert EncodeField(Verbatim, pairId) == EncodeField(Verbatim, s.pairId);
    assert PairTexts(t)[1..] == PairTexts(s)[1..];
  }

  // ----- Config

  /** `unit` repeats the two other fields. */
  datatype AssetRef = AssetRef(policyId: string, assetName: string, unit: string)

  /** The names are held as their UTF-8 bytes. */
  datatype Domain = Domain(name: seq<Byte>, version: seq<Byte>, sourceChainId: string, verifyingContract: string)

  /** The tx-build parameters for deposits, which the datum does not carry. */
  datatype DepositParams = DepositParams(minLovelace: string, maxPerMerge: string, maxPerUpdateFold: string)

  datatype ConfigText = ConfigText(
    signers: seq<string>,
    diaKeys: seq<string>,
    domain: Domain,
    baseFee: string,
    perPairFee: string,
    hookRef: Option<AssetRef>,
    coordinator: Option<Credential<string>>,
    maxDrift: string,
    minUtxo: string,
    deposits: DepositParams)

  const DOMAIN: seq<Kind> := [Verbatim, Verbatim, Decimal, Hex]
  const NUMBERS: seq<Kind> := [Decimal, Decimal]
  const ASSET: seq<Kind> := [Hex, Hex]
  const CREDENTIAL: seq<Kind> := [Hex]

  function DomainTexts(d: Domain): (t: seq<string>)
    ensures |t| == 4
  {
    [Encode(d.name), Encode(d.version), d.sourceChainId, d.verifyingContract]
  }

  function HexList(texts: seq<string>): Result<Data, DatumError> {
    var items :- EncodeAll(Copies(Hex, |texts|), texts);
    Ok(L(items))
  }

  function DomainData(d: Domain): Result<Data, DatumError> {
    var fields :- EncodeAll(DOMAIN, DomainTexts(d));
    Ok(Constr(0, fields))
  }

  function HookRefData(r: Option<AssetRef>): Result<Data, DatumError> {
    if r.None? then Ok(Constr(1, []))
    else
      var fields :- EncodeAll(ASSET, [r.value.policyId, r.value.assetName]);
      Ok(Constr(0, [Constr(0, fields)]))
  }

  function CoordinatorData(c: Option<Credential<string>>): Result<Data, DatumError> {
    if c.None? then Ok(Constr(1, []))
    else
      var fields :- EncodeAll(CREDENTIAL, [c.value.hash]);
      Ok(Constr(0, [Constr(if c.value.KeyHash? then 0 else 1, fields)]))
  }

  function ConfigLists(s: ConfigText): Result<seq<Data>, DatumError> {
    var signers :- HexList(s.signers);
    var diaKeys :- HexList(s.diaKeys);
    var domain :- DomainData(s.domain);
    Ok([signers, diaKeys, domain])
  }

  function ConfigRefs(s: ConfigText): Result<seq<Data>, DatumError> {
    var hookRef :- HookRefData(s.hookRef);
    var coordinator :- CoordinatorData(s.coordinator);
    Ok([hookRef, coordinator])
  }

  function BuildConfig(s: ConfigText): Result<Data, DatumError> {
    var lists :- ConfigLists(s);
    var fees :- EncodeAll(NUMBERS, [s.baseFee, s.perPairFee]);
    var refs :- ConfigRefs(s);
    var limits :- EncodeAll(NUMBERS, [s.maxDrift, s.minUtxo]);
    Ok(Constr(0, lists + fees + refs + limits))
  }

  datatype Fees = Fees(base: string, perPair: string)

  function DecodeConfigFees(d: Data): Result<Fees, DatumError> {
    var fields :- Fields(d, 3, 2);
    var t :- DecodeAll(NUMBERS, fields);
    DecodeLength(NUMBERS, fields);
    Ok(Fees(t[0], t[1]))
  }

  // ----- canonical configs

  predicate CanonicalConfig(s: ConfigText) {
    && IsCanonical(Copies(Hex, |s.signers|), s.signers) && IsCanonical(Copies(Hex, |s.diaKeys|), s.diaKeys)
    && IsCanonical(DOMAIN, DomainTexts(s.domain))
    && IsCanonical(NUMBERS, [s.baseFee, s.perPairFee]) && IsCanonical(NUMBERS, [s.maxDrift, s.minUtxo])
    && (s.hookRef.Some? ==>
          && IsCanonical(ASSET, [s.hookRef.value.policyId, s.hookRef.value.assetName])
          && s.hookRef.value.unit == s.hookRef.value.policyId + s.hookRef.value.assetName)
    && (s.coordinator.Some? ==> IsCanonical(CREDENTIAL, [s.coordinator.value.hash]))
  }

  /** What a number and what bytes are written as is canonical in every kind of field that takes them. */
  lemma WrittenFields(n: int, bytes: seq<Byte>)
    ensures CanonField(Decimal, ToDecimal(n)) == Ok(ToDecimal(n))
    ensures CanonField(Hex, Encode(bytes)) == Ok(Encode(bytes))
    ensures CanonField(Verbatim, Encode(bytes)) == Ok(Encode(bytes))
  {
    ParseToDecimal(n);
    NormalHex(Encode(bytes));
  }

  /** Every hook state of numbers and an address with a payment part is canonical once written, and can be built. */
  lemma WrittenHookBuilds(address: Address, accrued: int, collected: int, withdrawn: int, minUtxo: int)
    requires address.payment.Some?
    ensures var s := HookText(address, ToDecimal(accrued), ToDecimal(collected), ToDecimal(withdrawn),
                              ToDecimal(minUtxo));
      CanonicalHook(s) && BuildHook(s).Ok?
  {
    var s := HookText(address, ToDecimal(accrued), ToDecimal(collected), ToDecimal(withdrawn), ToDecimal(minUtxo));
    WrittenFields(accrued, []);
    WrittenFields(collected, []);
    WrittenFields(withdrawn, []);
    WrittenFields(minUtxo, []);
    hide CanonField, ToDecimal;
    CanonicalEncodes(HOOK, HookTexts(s));
  }

  function HexTexts(list: seq<seq<Byte>>): (t: seq<string>)
    ensures |t| == |list| && forall k :: 0 <= k < |list| ==> t[k] == Encode(list[k])
  {
    seq(|list|, k requires 0 <= k < |list| => Encode(list[k]))
  }

  lemma WrittenHexList(list: seq<seq<Byte>>)
    ensures IsCanonical(Copies(Hex, |list|), HexTexts(list))
  {
    forall k | 0 <= k < |list|
      ensures CanonField(Hex, HexTexts(list)[k]) == Ok(HexTexts(list)[k])
    {
      WrittenFields(0, list[k]);
    }
  }

  lemma WrittenNumbers(a: int, b: int)
    ensures IsCanonical(NUMBERS, [ToDecimal(a), ToDecimal(b)])
  {
    WrittenFields(a, []);
    WrittenFields(b, []);
    hide CanonField, ToDecimal;
  }

  lemma WrittenDomain(name: seq<Byte>, version: seq<Byte>, chainId: int, contract: seq<Byte>)
    ensures IsCanonical(DOMAIN, DomainTexts(Domain(name, version, ToDecimal(chainId), Encode(contract))))
  {
    WrittenFields(chainId, name);
    WrittenFields(chainId, version);
    WrittenFields(chainId, contract);
    hide CanonField, ToDecimal;
  }

  /** Every config of keys, numbers and a domain is canonical once written, before a hook or coordinator is set. */
  lemma WrittenConfigIsCanonical(signers: seq<seq<Byte>>, diaKeys: seq<seq<Byte>>, name: seq<Byte>, version: seq<Byte>,
                                 chainId: int, contract: seq<Byte>, baseFee: int, perPairFee: int, maxDrift: int,
                                 minUtxo: int, deposits: DepositParams)
    ensures CanonicalConfig(
              ConfigText(HexTexts(signers), HexTexts(diaKeys),
                         Domain(name, version, ToDecimal(chainId), Encode(contract)), ToDecimal(baseFee),
                         ToDecimal(perPairFee), None, None, ToDecimal(maxDrift), ToDecimal(minUtxo), deposits))
  {
    WrittenHexList(signers);
    WrittenHexList(diaKeys);
    WrittenDomain(name, version, chainId, contract);
    WrittenNumbers(baseFee, perPairFee);
    WrittenNumbers(maxDrift, minUtxo);
    hide IsCanonical;
  }

  /** Canonical texts can be encoded, and are what decoding gives back. */
  lemma CanonicalEncodes(kinds: seq<Kind>, a: seq<string>)
    requires |kinds| == |a| && IsCanonical(kinds, a)
    ensures EncodeAll(kinds, a).Ok? && |EncodeAll(kinds, a).value| == |kinds|
    ensures DecodeAll(kinds, EncodeAll(kinds, a).value) == Ok(a)
  {
    CanonicalFieldwise(kinds, a);
    AllRoundTrip(kinds, a);
  }

  lemma HexListInjective(a: seq<string>, b: seq<string>)
    requires IsCanonical(Copies(Hex, |a|), a) && IsCanonical(Copies(Hex, |b|), b)
    ensures HexList(a).Ok? && (HexList(a) == HexList(b) ==> a == b)
  {
    CanonicalEncodes(Copies(Hex, |a|), a);
    CanonicalEncodes(Copies(Hex, |b|), b);
    if HexList(a) == HexList(b) {
      assert Copies(Hex, |a|) == Copies(Hex, |b|);
    }
  }

  lemma DomainInjective(a: Domain, b: Domain)
    requires IsCanonical(DOMAIN, DomainTexts(a)) && IsCanonical(DOMAIN, DomainTexts(b))
    ensures DomainData(a).Ok? && (DomainData(a) == DomainData(b) ==> a == b)
  {
    CanonicalEncodes(DOMAIN, DomainTexts(a));
    CanonicalEncodes(DOMAIN, DomainTexts(b));
    if DomainData(a) == DomainData(b) {
      var x, y := DomainTexts(a), DomainTexts(b);
      assert x == y;
      assert x[0] == y[0] && x[1] == y[1] && x[2] == y[2] && x[3] == y[3];
      DecodeEncode(a.name);
      DecodeEncode(b.name);
      DecodeEncode(a.version);
      DecodeEncode(b.version);
    }
  }

  lemma HookRefInjective(a: Option<AssetRef>, b: Option<AssetRef>)
    requires a.Some? ==> IsCanonical(ASSET, [a.value.policyId, a.value.assetName])
    requires b.Some? ==> IsCanonical(ASSET, [b.value.policyId, b.value.assetName])
    requires a.Some? ==> a.value.unit == a.value.policyId + a.value.assetName
    requires b.Some? ==> b.value.unit == b.value.policyId + b.value.assetName
    ensures HookRefData(a).Ok? && (HookRefData(a) == HookRefData(b) ==> a == b)
  {
    if a.Some? {
      CanonicalEncodes(ASSET, [a.value.policyId, a.value.assetName]);
    }
    if b.Some? {
      CanonicalEncodes(ASSET, [b.value.policyId, b.value.assetName]);
    }
    if a.Some? && b.Some? && HookRefData(a) == HookRefData(b) {
      assert HookRefData(a).value.fields[0] == HookRefData(b).value.fields[0];
      var x, y := [a.value.policyId, a.value.assetName], [b.value.policyId, b.value.assetName];
      assert x == y;
      assert x[0] == y[0] && x[1] == y[1];
    }
  }

  lemma CoordinatorInjective(a: Option<Credential<string>>, b: Option<Credential<string>>)
    requires a.Some? ==> IsCanonical(CREDENTIAL, [a.value.hash])
    requires b.Some? ==> IsCanonical(CREDENTIAL, [b.value.hash])
    ensures CoordinatorData(a).Ok? && (CoordinatorData(a) == CoordinatorData(b) ==> a == b)
  {
    if a.Some? {
      CanonicalEncodes(CREDENTIAL, [a.value.hash]);
    }
    if b.Some? {
      CanonicalEncodes(CREDENTIAL, [b.value.hash]);
    }
    if a.Some? && b.Some? && CoordinatorData(a) == CoordinatorData(b) {
      assert CoordinatorData(a).value.fields[0] == CoordinatorData(b).value.fields[0];
      assert [a.value.hash] == [b.value.hash];
      assert [a.value.hash][0] == [b.value.hash][0];
    }
  }

  lemma NumbersInjective(a: seq<string>, b: seq<string>)
    requires |a| == |b| == 2 && IsCanonical(NUMBERS, a) && IsCanonical(NUMBERS, b)
    ensures EncodeAll(NUMBERS, a).Ok? && |EncodeAll(NUMBERS, a).value| == 2
    ensures EncodeAll(NUMBERS, a) == EncodeAll(NUMBERS, b) ==> a[0] == b[0] && a[1] == b[1]
  {
    CanonicalEncodes(NUMBERS, a);
    CanonicalEncodes(NUMBERS, b);
  }

  lemma ConfigBuilds(s: ConfigText)
    requires CanonicalConfig(s)
    ensures ConfigLists(s).Ok? && ConfigRefs(s).Ok?
    ensures BuildConfig(s).Ok? && |BuildConfig(s).value.fields| == 9
  {
    HexListInjective(s.signers, s.signers);
    HexListInjective(s.diaKeys, s.diaKeys);
    DomainInjective(s.domain, s.domain);
    NumbersInjective([s.baseFee, s.perPairFee], [s.baseFee, s.perPairFee]);
    HookRefInjective(s.hookRef, s.hookRef);
    CoordinatorInjective(s.coordinator, s.coordinator);
    NumbersInjective([s.maxDrift, s.minUtxo], [s.maxDrift, s.minUtxo]);
  }

  lemma FourSlices(a: seq<Data>, b: seq<Data>, c: seq<Data>, d: seq<Data>)
    requires |a| == 3 && |b| == |c| == |d| == 2
    ensures var f := a + b + c + d;
      |f| == 9 && f[..3] == a && f[3..5] == b && f[5..7] == c && f[7..] == d
  {
  }

  lemma NumbersLength(a: string, b: string)
    ensures EncodeAll(NUMBERS, [a, b]).Ok? ==> |EncodeAll(NUMBERS, [a, b]).value| == 2
  {
    AllLengths(NUMBERS, [a, b]);
  }

  lemma ConfigSlices(s: ConfigText)
    requires BuildConfig(s).Ok?
    ensures |BuildConfig(s).value.fields| == 9
    ensures var f := BuildConfig(s).value.fields;
      && ConfigLists(s) == Ok(f[..3]) && EncodeAll(NUMBERS, [s.baseFee, s.perPairFee]) == Ok(f[3..5])
      && ConfigRefs(s) == Ok(f[5..7]) && EncodeAll(NUMBERS, [s.maxDrift, s.minUtxo]) == Ok(f[7..])
  {
    NumbersLength(s.baseFee, s.perPairFee);
    NumbersLength(s.maxDrift, s.minUtxo);
    FourSlices(ConfigLists(s).value, EncodeAll(NUMBERS, [s.baseFee, s.perPairFee]).value,
               ConfigRefs(s).value, EncodeAll(NUMBERS, [s.maxDrift, s.minUtxo]).value);
  }

  /** The nine-field datum tells any two canonical states apart, except by the deposit parameters it does not carry. */
  lemma ConfigEncodingInjective(a: ConfigText, b: ConfigText)
    requires CanonicalConfig(a) && CanonicalConfig(b)
    ensures BuildConfig(a).Ok? && BuildConfig(b).Ok?
    ensures BuildConfig(a) == BuildConfig(b) <==> a.(deposits := b.deposits) == b
  {
    ConfigBuilds(a);
    ConfigBuilds(b);
    ConfigIgnoresDeposits(a, b.deposits);
    if BuildConfig(a) == BuildConfig(b) {
      SameConfig(a, b);
    }
  }

  lemma ConfigIgnoresDeposits(s: ConfigText, deposits: DepositParams)
    ensures BuildConfig(s.(deposits := deposits)) == BuildConfig(s)
  {
  }

  lemma SameConfig(a: ConfigText, b: ConfigText)
    requires CanonicalConfig(a) && CanonicalConfig(b) && BuildConfig(a) == BuildConfig(b)
    ensures a.(deposits := b.deposits) == b
  {
    ConfigBuilds(a);
    ConfigSlices(a);
    ConfigSlices(b);
    SameLists(a, b);
    SameRefs(a, b);
    NumbersInjective([a.baseFee, a.perPairFee], [b.baseFee, b.perPairFee]);
    NumbersInjective([a.maxDrift, a.minUtxo], [b.maxDrift, b.minUtxo]);
  }

  lemma SameLists(a: ConfigText, b: ConfigText)
    requires CanonicalConfig(a) && CanonicalConfig(b) && ConfigLists(a).Ok? && ConfigLists(a) == ConfigLists(b)
    ensures a.signers == b.signers && a.diaKeys == b.diaKeys && a.domain == b.domain
  {
    var x, y := ConfigLists(a).value, ConfigLists(b).value;
    assert x[0] == y[0] && x[1] == y[1] && x[2] == y[2];
    HexListInjective(a.signers, b.signers);
    HexListInjective(a.diaKeys, b.diaKeys);
    DomainInjective(a.domain, b.domain);
  }

  lemma SameRefs(a: ConfigText, b: ConfigText)
    requires CanonicalConfig(a) && CanonicalConfig(b) && ConfigRefs(a).Ok? && ConfigRefs(a) == ConfigRefs(b)
    ensures a.hookRef == b.hookRef && a.coordinator == b.coordinator
  {
    var x, y := ConfigRefs(a).value, ConfigRefs(b).value;
    assert x[0] == y[0] && x[1] == y[1];
    HookRefInjective(a.hookRef, b.hookRef);
    CoordinatorInjective(a.coordinator, b.coordinator);
  }

  /** The fee decoder reads the fees that were encoded, in canonical decimals. */
  lemma FeesAreReadBack(s: ConfigText)
    requires BuildConfig(s).Ok?
    ensures Canonical(s.baseFee).Ok? && Canonical(s.perPairFee).Ok?
    ensures DecodeConfigFees(BuildConfig(s).value)
         == Ok(Fees(Canonical(s.baseFee).value, Canonical(s.perPairFee).value))
  {
    var texts := [s.baseFee, s.perPairFee];
    ConfigSlices(s);
    AllRoundTrip(NUMBERS, texts);
    assert texts[1..] == [s.perPairFee] && NUMBERS[1..] == [Decimal] && texts[1..][1..] == [];
    assert CanonAll(NUMBERS, texts).Ok?;
  }
}

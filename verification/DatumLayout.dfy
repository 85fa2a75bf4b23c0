/** The datums as the Aiken contracts declare them, and what the encoders and decoders make of each record. */
module DatumLayout {
  import opened Prelude
  import opened HexCodec
  import opened Decimals
  import opened Datums

  // ----- the records on the chain, their fields in the order of the contracts

  datatype PairDatum = PairDatum(
    pairId: seq<Byte>, price: int, timestamp: int, nonce: int,
    intentHash: seq<Byte>, signer: seq<Byte>, minUtxo: int)

  datatype ReceiverDatum = ReceiverDatum(balance: int, accrued: int, minUtxo: int)

  datatype HookDatum = HookDatum(withdrawAddress: Data, accrued: int, collected: int, withdrawn: int, minUtxo: int)

  datatype DomainDatum = DomainDatum(name: seq<Byte>, version: seq<Byte>, chainId: int, contract: seq<Byte>)

  datatype TokenRef = TokenRef(policyId: seq<Byte>, assetName: seq<Byte>)

  datatype ConfigDatum = ConfigDatum(
    admins: seq<seq<Byte>>, diaKeys: seq<seq<Byte>>, domain: DomainDatum, baseFee: int, perPairFee: int,
    hookRef: Option<TokenRef>, coordinator: Option<Credential<seq<Byte>>>, maxDrift: int, minUtxo: int)

  function OnChainPair(r: PairDatum): Data {
    Constr(0, [B(r.pairId), I(r.price), I(r.timestamp), I(r.nonce), B(r.intentHash), B(r.signer), I(r.minUtxo)])
  }

  function OnChainReceiver(r: ReceiverDatum): Data {
    Constr(0, [I(r.balance), I(r.accrued), I(r.minUtxo)])
  }

  function OnChainHook(r: HookDatum): Data {
    Constr(0, [r.withdrawAddress, I(r.accrued), I(r.collected), I(r.withdrawn), I(r.minUtxo)])
  }

  function OnChainBytes(list: seq<seq<Byte>>): Data {
    L(seq(|list|, k requires 0 <= k < |list| => B(list[k])))
  }

  /** An optional value is constructor 0 around it, or constructor 1. */
  function OnChainOption(value: Option<Data>): Data {
    if value.Some? then Constr(0, [value.value]) else Constr(1, [])
  }

  /** A verification key is constructor 0, a script constructor 1. */
  function OnChainCredential(c: Credential<seq<Byte>>): Data {
    if c.KeyHash? then Constr(0, [B(c.hash)]) else Constr(1, [B(c.hash)])
  }

  function OnChainConfig(r: ConfigDatum): Data {
    Constr(0, [
      OnChainBytes(r.admins),
      OnChainBytes(r.diaKeys),
      Constr(0, [B(r.domain.name), B(r.domain.version), I(r.domain.chainId), B(r.domain.contract)]),
      I(r.baseFee),
      I(r.perPairFee),
      OnChainOption(if r.hookRef.None? then None
                    else Some(Constr(0, [B(r.hookRef.value.policyId), B(r.hookRef.value.assetName)]))),
      OnChainOption(if r.coordinator.None? then None else Some(OnChainCredential(r.coordinator.value))),
      I(r.maxDrift),
      I(r.minUtxo)])
  }

  /** How a validator takes an address apart; a stake pointer is not something the encoder writes. */
  function ReadCredential(d: Data): Option<Credential<seq<Byte>>> {
    match d
    case Constr(tag, fields) =>
      if |fields| == 1 && fields[0].B? && tag <= 1
      then Some(if tag == 0 then KeyHash(fields[0].bytes) else ScriptHash(fields[0].bytes))
      else None
    case _ => None
  }

  function ReadAddress(d: Data): Option<Address> {
    if !d.Constr? || d.tag != 0 || |d.fields| != 2 then None
    else
      var payment, stake := ReadCredential(d.fields[0]), d.fields[1];
      if payment.None? || !stake.Constr? then None
      else if stake.tag == 1 && stake.fields == [] then Some(Address(payment, None))
      else if stake.tag == 0 && |stake.fields| == 1 && stake.fields[0].Constr?
        && stake.fields[0].tag == 0 && |stake.fields[0].fields| == 1
        && ReadCredential(stake.fields[0].fields[0]).Some?
      then Some(Address(payment, ReadCredential(stake.fields[0].fields[0])))
      else None
  }

  // ----- lists of fields, position by position

  lemma {:induction false} EncodedFields(kinds: seq<Kind>, texts: seq<string>)
    requires |kinds| == |texts|
    ensures EncodeAll(kinds, texts).Ok? <==> forall k :: 0 <= k < |kinds| ==> EncodeField(kinds[k], texts[k]).Ok?
    ensures EncodeAll(kinds, texts).Ok? ==>
      var fields := EncodeAll(kinds, texts).value;
      |fields| == |kinds| && forall k :: 0 <= k < |kinds| ==> EncodeField(kinds[k], texts[k]) == Ok(fields[k])
    decreases |kinds|
  {
    hide EncodeField;
    if kinds != [] {
      EncodedFields(kinds[1..], texts[1..]);
      assert forall k :: 0 < k < |kinds| ==> kinds[k] == kinds[1..][k - 1] && texts[k] == texts[1..][k - 1];
      assert forall k :: 0 <= k < |kinds[1..]| ==> kinds[1..][k] == kinds[k + 1] && texts[1..][k] == texts[k + 1];
    }
  }

  lemma EncodedAs(kinds: seq<Kind>, texts: seq<string>, fields: seq<Data>)
    requires |kinds| == |texts| == |fields|
    requires forall k :: 0 <= k < |kinds| ==> EncodeField(kinds[k], texts[k]) == Ok(fields[k])
    ensures EncodeAll(kinds, texts) == Ok(fields)
  {
    hide EncodeField, EncodeAll;
    EncodedFields(kinds, texts);
    assert EncodeAll(kinds, texts).value == fields;
  }

  lemma {:induction false} DecodedFields(kinds: seq<Kind>, fields: seq<Data>, texts: seq<string>)
    requires |kinds| == |fields| == |texts|
    requires forall k :: 0 <= k < |kinds| ==> DecodeField(kinds[k], fields[k]) == Ok(texts[k])
    ensures DecodeAll(kinds, fields) == Ok(texts)
    decreases |kinds|
  {
    hide DecodeField;
    if kinds != [] {
      forall k | 0 <= k < |kinds[1..]|
        ensures DecodeField(kinds[1..][k], fields[1..][k]) == Ok(texts[1..][k])
      {
        assert kinds[1..][k] == kinds[k + 1] && fields[1..][k] == fields[k + 1] && texts[1..][k] == texts[k + 1];
      }
      DecodedFields(kinds[1..], fields[1..], texts[1..]);
      assert texts == [texts[0]] + texts[1..];
    }
  }

  /** What the decoder makes of a number and of bytes, in every kind of field that takes them. */
  lemma ReadFields(n: int, bytes: seq<Byte>)
    ensures DecodeField(Decimal, I(n)) == Ok(ToDecimal(n)) && EncodeField(Decimal, ToDecimal(n)) == Ok(I(n))
    ensures forall k :: !(k == Decimal) ==>
      DecodeField(k, B(bytes)) == Ok(Encode(bytes)) && EncodeField(k, Encode(bytes)) == Ok(B(bytes))
  {
    ParseToDecimal(n);
    NormalHex(Encode(bytes));
    DecodeEncode(bytes);
  }

  // ----- Pair

  /** A pair builds exactly when its texts can be read, and its datum is the contract's record of what they say. */
  lemma PairLayout(s: PairText)
    ensures BuildPair(s).Ok? <==>
      && IsHex(Lower(s.pairId)) && ParseBigInt(s.price).Ok? && ParseBigInt(s.timestamp).Ok?
      && ParseBigInt(s.nonce).Ok? && NormalizeHex(s.intentHash).Ok? && NormalizeHex(s.signer).Ok?
      && ParseBigInt(s.minUtxo).Ok?
    ensures BuildPair(s).Ok? ==>
      BuildPair(s).value == OnChainPair(PairDatum(
        HexCodec.Decode(Lower(s.pairId)), ParseBigInt(s.price).value, ParseBigInt(s.timestamp).value,
        ParseBigInt(s.nonce).value, HexCodec.Decode(NormalizeHex(s.intentHash).value),
        HexCodec.Decode(NormalizeHex(s.signer).value), ParseBigInt(s.minUtxo).value))
  {
    hide EncodeAll, NormalizeHex, ParseBigInt, HexCodec.Decode, Lower, IsHex;
    var texts := PairTexts(s);
    EncodedFields(PAIR, texts);
    assert EncodeField(PAIR[0], texts[0]) == EncodeField(Verbatim, s.pairId);
    assert EncodeField(PAIR[1], texts[1]) == EncodeField(Decimal, s.price);
    assert EncodeField(PAIR[2], texts[2]) == EncodeField(Decimal, s.timestamp);
    assert EncodeField(PAIR[3], texts[3]) == EncodeField(Decimal, s.nonce);
    assert EncodeField(PAIR[4], texts[4]) == EncodeField(Hex, s.intentHash);
    assert EncodeField(PAIR[5], texts[5]) == EncodeField(Hex, s.signer);
    assert EncodeField(PAIR[6], texts[6]) == EncodeField(Decimal, s.minUtxo);
  }

  /** Every record on the chain is decoded field by field, and building what was decoded gives the record again. */
  lemma PairOnChainRoundTrip(r: PairDatum)
    ensures var s := PairText(Encode(r.pairId), ToDecimal(r.price), ToDecimal(r.timestamp), ToDecimal(r.nonce),
                              Encode(r.intentHash), Encode(r.signer), ToDecimal(r.minUtxo));
      DecodePair(OnChainPair(r)) == Ok(s) && BuildPair(s) == Ok(OnChainPair(r))
  {
    hide EncodeAll, DecodeAll, EncodeField, DecodeField, Encode, ToDecimal;
    var s := PairText(Encode(r.pairId), ToDecimal(r.price), ToDecimal(r.timestamp), ToDecimal(r.nonce),
                      Encode(r.intentHash), Encode(r.signer), ToDecimal(r.minUtxo));
    var fields, texts := OnChainPair(r).fields, PairTexts(s);
    ReadFields(r.price, r.pairId);
    ReadFields(r.timestamp, r.intentHash);
    ReadFields(r.nonce, r.signer);
    ReadFields(r.minUtxo, []);
    assert fields[0..7] == fields;
    DecodedFields(PAIR, fields, texts);
    EncodedAs(PAIR, texts, fields);
    SamePair(PairOf(texts), s);
  }

  lemma SamePair(a: PairText, b: PairText)
    requires PairTexts(a) == PairTexts(b)
    ensures a == b
  {
    assert forall i :: 0 <= i < 7 ==> PairTexts(a)[i] == PairTexts(b)[i];
    assert PairTexts(a)[0] == a.pairId && PairTexts(a)[1] == a.price && PairTexts(a)[2] == a.timestamp;
    assert PairTexts(a)[3] == a.nonce && PairTexts(a)[4] == a.intentHash && PairTexts(a)[5] == a.signer;
    assert PairTexts(a)[6] == a.minUtxo;
  }

  // ----- Receiver

  lemma ReceiverLayout(s: ReceiverText)
    ensures BuildReceiver(s).Ok? <==>
      ParseBigInt(s.balance).Ok? && ParseBigInt(s.accrued).Ok? && ParseBigInt(s.minUtxo).Ok?
    ensures BuildReceiver(s).Ok? ==>
      BuildReceiver(s).value == OnChainReceiver(ReceiverDatum(
        ParseBigInt(s.balance).value, ParseBigInt(s.accrued).value, ParseBigInt(s.minUtxo).value))
  {
    hide EncodeAll, ParseBigInt;
    var texts := ReceiverTexts(s);
    EncodedFields(RECEIVER, texts);
    assert EncodeField(RECEIVER[0], texts[0]) == EncodeField(Decimal, s.balance);
    assert EncodeField(RECEIVER[1], texts[1]) == EncodeField(Decimal, s.accrued);
    assert EncodeField(RECEIVER[2], texts[2]) == EncodeField(Decimal, s.minUtxo);
  }

  lemma ReceiverOnChainRoundTrip(r: ReceiverDatum)
    ensures var s := ReceiverText(ToDecimal(r.balance), ToDecimal(r.accrued), ToDecimal(r.minUtxo));
      DecodeReceiver(OnChainReceiver(r)) == Ok(s) && BuildReceiver(s) == Ok(OnChainReceiver(r))
  {
    hide EncodeAll, DecodeAll, EncodeField, DecodeField, ToDecimal;
    var s := ReceiverText(ToDecimal(r.balance), ToDecimal(r.accrued), ToDecimal(r.minUtxo));
    var fields, texts := OnChainReceiver(r).fields, ReceiverTexts(s);
    ReadFields(r.balance, []);
    ReadFields(r.accrued, []);
    ReadFields(r.minUtxo, []);
    assert fields[0..3] == fields;
    DecodedFields(RECEIVER, fields, texts);
    EncodedAs(RECEIVER, texts, fields);
    assert ReceiverTexts(ReceiverOf(texts)) == texts;
    assert ReceiverTexts(ReceiverOf(texts))[0] == s.balance && ReceiverTexts(ReceiverOf(texts))[1] == s.accrued;
    assert ReceiverTexts(ReceiverOf(texts))[2] == s.minUtxo;
  }

  // ----- PaymentHook

  /** A validator reads back exactly the address that was encoded; only an address with a payment part can be. */
  lemma AddressIsReadBack(a: Address)
    ensures AddressData(a).Ok? <==> a.payment.Some?
    ensures AddressData(a).Ok? ==> ReadAddress(AddressData(a).value) == Some(a)
  {
  }

  lemma HookLayout(s: HookText)
    ensures BuildHook(s).Ok? <==>
      && s.withdrawAddress.payment.Some? && ParseBigInt(s.accrued).Ok? && ParseBigInt(s.collected).Ok?
      && ParseBigInt(s.withdrawn).Ok? && ParseBigInt(s.minUtxo).Ok?
    ensures BuildHook(s).Ok? ==>
      && ReadAddress(BuildHook(s).value.fields[0]) == Some(s.withdrawAddress)
      && BuildHook(s).value == OnChainHook(HookDatum(
           BuildHook(s).value.fields[0], ParseBigInt(s.accrued).value, ParseBigInt(s.collected).value,
           ParseBigInt(s.withdrawn).value, ParseBigInt(s.minUtxo).value))
  {
    hide EncodeAll, ParseBigInt, AddressData, ReadAddress;
    var texts := HookTexts(s);
    EncodedFields(HOOK, texts);
    AddressIsReadBack(s.withdrawAddress);
    assert EncodeField(HOOK[0], texts[0]) == EncodeField(Decimal, s.accrued);
    assert EncodeField(HOOK[1], texts[1]) == EncodeField(Decimal, s.collected);
    assert EncodeField(HOOK[2], texts[2]) == EncodeField(Decimal, s.withdrawn);
    assert EncodeField(HOOK[3], texts[3]) == EncodeField(Decimal, s.minUtxo);
  }

  /** The decoder takes the address from its caller; with the one in the datum, building gives the datum again. */
  lemma HookOnChainRoundTrip(r: HookDatum, a: Address)
    ensures var s := HookText(a, ToDecimal(r.accrued), ToDecimal(r.collected), ToDecimal(r.withdrawn),
                              ToDecimal(r.minUtxo));
      && DecodeHook(OnChainHook(r), a) == Ok(s)
      && (AddressData(a) == Ok(r.withdrawAddress) ==> BuildHook(s) == Ok(OnChainHook(r)))
  {
    hide EncodeAll, DecodeAll, EncodeField, DecodeField, ToDecimal, AddressData;
    var s := HookText(a, ToDecimal(r.accrued), ToDecimal(r.collected), ToDecimal(r.withdrawn), ToDecimal(r.minUtxo));
    var fields, texts := OnChainHook(r).fields[1..], HookTexts(s);
    ReadFields(r.accrued, []);
    ReadFields(r.collected, []);
    ReadFields(r.withdrawn, []);
    ReadFields(r.minUtxo, []);
    assert OnChainHook(r).fields[1..5] == fields;
    DecodedFields(HOOK, fields, texts);
    EncodedAs(HOOK, texts, fields);
    assert texts[0] == s.accrued && texts[1] == s.collected && texts[2] == s.withdrawn && texts[3] == s.minUtxo;
    assert [r.withdrawAddress] + fields == OnChainHook(r).fields;
  }

  // ----- Config

  predicate AllHex(texts: seq<string>) {
    forall k :: 0 <= k < |texts| ==> NormalizeHex(texts[k]).Ok?
  }

  function HexValues(texts: seq<string>): (list: seq<seq<Byte>>)
    requires AllHex(texts)
  {
    seq(|texts|, k requires 0 <= k < |texts| => HexCodec.Decode(NormalizeHex(texts[k]).value))
  }

  lemma HexListLayout(texts: seq<string>)
    ensures HexList(texts).Ok? <==> AllHex(texts)
    ensures HexList(texts).Ok? ==> HexList(texts).value == OnChainBytes(HexValues(texts))
  {
    hide EncodeAll, NormalizeHex, HexCodec.Decode;
    EncodedFields(Copies(Hex, |texts|), texts);
    if HexList(texts).Ok? {
      assert HexList(texts).value.items == OnChainBytes(HexValues(texts)).items;
    }
  }

  lemma DomainLayout(d: Domain)
    ensures DomainData(d).Ok? <==> ParseBigInt(d.sourceChainId).Ok? && NormalizeHex(d.verifyingContract).Ok?
    ensures DomainData(d).Ok? ==>
      DomainData(d).value == Constr(0, [
        B(d.name), B(d.version), I(ParseBigInt(d.sourceChainId).value),
        B(HexCodec.Decode(NormalizeHex(d.verifyingContract).value))])
  {
    hide EncodeAll, NormalizeHex, ParseBigInt, HexCodec.Decode, HexBytes, Encode;
    var texts := DomainTexts(d);
    ReadFields(0, d.name);
    ReadFields(0, d.version);
    EncodedFields(DOMAIN, texts);
    assert EncodeField(DOMAIN[0], texts[0]) == EncodeField(Verbatim, Encode(d.name));
    assert EncodeField(DOMAIN[1], texts[1]) == EncodeField(Verbatim, Encode(d.version));
    assert EncodeField(DOMAIN[2], texts[2]) == EncodeField(Decimal, d.sourceChainId);
    assert EncodeField(DOMAIN[3], texts[3]) == EncodeField(Hex, d.verifyingContract);
  }

  lemma HookRefLayout(r: Option<AssetRef>)
    ensures HookRefData(r).Ok? <==>
      (r.Some? ==> NormalizeHex(r.value.policyId).Ok? && NormalizeHex(r.value.assetName).Ok?)
    ensures HookRefData(r).Ok? ==>
      HookRefData(r).value == OnChainOption(
        if r.None? then None
        else Some(Constr(0, [B(HexCodec.Decode(NormalizeHex(r.value.policyId).value)),
                             B(HexCodec.Decode(NormalizeHex(r.value.assetName).value))])))
  {
    hide EncodeAll, NormalizeHex, HexCodec.Decode;
    if r.Some? {
      var texts := [r.value.policyId, r.value.assetName];
      EncodedFields(ASSET, texts);
      assert EncodeField(ASSET[0], texts[0]) == EncodeField(Hex, r.value.policyId);
      assert EncodeField(ASSET[1], texts[1]) == EncodeField(Hex, r.value.assetName);
      if HookRefData(r).Ok? {
        var fields := EncodeAll(ASSET, texts).value;
        assert fields == [fields[0], fields[1]];
      }
    }
  }

  lemma CoordinatorLayout(c: Option<Credential<string>>)
    ensures CoordinatorData(c).Ok? <==> (c.Some? ==> NormalizeHex(c.value.hash).Ok?)
    ensures CoordinatorData(c).Ok? ==>
      CoordinatorData(c).value == OnChainOption(
        if c.None? then None else Some(OnChainCredential(CredentialOf(c.value))))
  {
    hide EncodeAll, NormalizeHex, HexCodec.Decode;
    if c.Some? {
      EncodedFields(CREDENTIAL, [c.value.hash]);
      assert EncodeField(CREDENTIAL[0], [c.value.hash][0]) == EncodeField(Hex, c.value.hash);
      if CoordinatorData(c).Ok? {
        var fields := EncodeAll(CREDENTIAL, [c.value.hash]).value;
        assert fields == [fields[0]];
      }
    }
  }

  function CredentialOf(c: Credential<string>): Credential<seq<Byte>>
    requires NormalizeHex(c.hash).Ok?
  {
    var hash := HexCodec.Decode(NormalizeHex(c.hash).value);
    if c.KeyHash? then KeyHash(hash) else ScriptHash(hash)
  }

  lemma NumbersLayout(a: string, b: string)
    ensures EncodeAll(NUMBERS, [a, b]).Ok? <==> ParseBigInt(a).Ok? && ParseBigInt(b).Ok?
    ensures EncodeAll(NUMBERS, [a, b]).Ok? ==>
      EncodeAll(NUMBERS, [a, b]) == Ok([I(ParseBigInt(a).value), I(ParseBigInt(b).value)])
  {
    hide EncodeAll, ParseBigInt;
    EncodedFields(NUMBERS, [a, b]);
    assert EncodeField(NUMBERS[0], [a, b][0]) == EncodeField(Decimal, a);
    assert EncodeField(NUMBERS[1], [a, b][1]) == EncodeField(Decimal, b);
    if EncodeAll(NUMBERS, [a, b]).Ok? {
      var fields := EncodeAll(NUMBERS, [a, b]).value;
      assert fields == [fields[0], fields[1]];
    }
  }

  /** The texts of a config that can be read. */
  predicate Readable(s: ConfigText) {
    && AllHex(s.signers) && AllHex(s.diaKeys)
    && ParseBigInt(s.domain.sourceChainId).Ok? && NormalizeHex(s.domain.verifyingContract).Ok?
    && ParseBigInt(s.baseFee).Ok? && ParseBigInt(s.perPairFee).Ok?
    && (s.hookRef.Some? ==>
          NormalizeHex(s.hookRef.value.policyId).Ok? && NormalizeHex(s.hookRef.value.assetName).Ok?)
    && (s.coordinator.Some? ==> NormalizeHex(s.coordinator.value.hash).Ok?)
    && ParseBigInt(s.maxDrift).Ok? && ParseBigInt(s.minUtxo).Ok?
  }

  function ConfigRecord(s: ConfigText): ConfigDatum
    requires Readable(s)
  {
    ConfigDatum(
      HexValues(s.signers),
      HexValues(s.diaKeys),
      DomainDatum(s.domain.name, s.domain.version, ParseBigInt(s.domain.sourceChainId).value,
                  HexCodec.Decode(NormalizeHex(s.domain.verifyingContract).value)),
      ParseBigInt(s.baseFee).value,
      ParseBigInt(s.perPairFee).value,
      if s.hookRef.None? then None
      else Some(TokenRef(HexCodec.Decode(NormalizeHex(s.hookRef.value.policyId).value),
                         HexCodec.Decode(NormalizeHex(s.hookRef.value.assetName).value))),
      if s.coordinator.None? then None else Some(CredentialOf(s.coordinator.value)),
      ParseBigInt(s.maxDrift).value,
      ParseBigInt(s.minUtxo).value)
  }

  /** A config builds exactly when its texts can be read, and its datum is the contract's record of what they say. */
  lemma ConfigLayout(s: ConfigText)
    ensures BuildConfig(s).Ok? <==> Readable(s)
    ensures BuildConfig(s).Ok? ==> BuildConfig(s).value == OnChainConfig(ConfigRecord(s))
  {
    hide EncodeAll, NormalizeHex, ParseBigInt, HexCodec.Decode, HexList, DomainData, HookRefData, CoordinatorData;
    hide AllHex, HexValues, OnChainBytes, OnChainCredential, CredentialOf;
    HexListLayout(s.signers);
    HexListLayout(s.diaKeys);
    DomainLayout(s.domain);
    NumbersLayout(s.baseFee, s.perPairFee);
    HookRefLayout(s.hookRef);
    CoordinatorLayout(s.coordinator);
    NumbersLayout(s.maxDrift, s.minUtxo);
  }

  /** The fee decoder reads the contract's two fee fields of every config on the chain. */
  lemma FeesAreReadOnChain(r: ConfigDatum)
    ensures DecodeConfigFees(OnChainConfig(r)) == Ok(Fees(ToDecimal(r.baseFee), ToDecimal(r.perPairFee)))
  {
    hide DecodeAll, ToDecimal, OnChainBytes, OnChainOption, OnChainCredential;
    var fields, texts := [I(r.baseFee), I(r.perPairFee)], [ToDecimal(r.baseFee), ToDecimal(r.perPairFee)];
    assert OnChainConfig(r).fields[3..5] == fields;
    DecodedFields(NUMBERS, fields, texts);
  }
}

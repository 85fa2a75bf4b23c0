/** Which batches are accepted, and the canonical order they are put in (transactions/update-batch.ts). */
module BatchOrder {
  import opened Prelude
  import opened HexCodec
  import opened Folds

  /** The fields of a resolved pair artifact that the batch checks read. */
  datatype Artifact = Artifact(
    receiverUnit: Option<string>,
    configUnit: string,
    paymentHookUnit: string,
    pairPolicyId: string,
    pairUnit: string,
    tokenName: string,
    pairValidatorAddress: string)

  datatype BatchError =
    | NoReceiver
    | ForeignDeployment
    | DuplicatePair(unit: string)
    | ForeignValidator

  predicate SameDeployment(a: Artifact, head: Artifact) {
    && a.receiverUnit == head.receiverUnit && a.configUnit == head.configUnit
    && a.paymentHookUnit == head.paymentHookUnit && a.pairPolicyId == head.pairPolicyId
  }

  function PairUnits(states: seq<Artifact>): (units: seq<string>)
    ensures |units| == |states|
  {
    seq(|states|, i requires 0 <= i < |states| => states[i].pairUnit)
  }

  /** One client, one validator, no pair twice. */
  ghost predicate Compatible(states: seq<Artifact>) {
    && states != [] && states[0].receiverUnit.Some?
    && (forall i :: 0 <= i < |states| ==>
          && states[i].receiverUnit == states[0].receiverUnit && states[i].configUnit == states[0].configUnit
          && states[i].paymentHookUnit == states[0].paymentHookUnit
          && states[i].pairPolicyId == states[0].pairPolicyId)
    && Distinct(PairUnits(states))
    && (forall i :: 0 <= i < |states| ==> states[i].pairValidatorAddress == states[0].pairValidatorAddress)
  }

  method EnsureCompatibleBatch(states: seq<Artifact>) returns (r: Result<(), BatchError>)
    ensures r.Ok? <==> Compatible(states)
    ensures r.Err? && r.error.DuplicatePair? ==>
              exists i, j :: 0 <= i < j < |states| && states[i].pairUnit == states[j].pairUnit == r.error.unit
    ensures r == Err(NoReceiver) ==>
              states == [] || exists i :: 0 <= i < |states| && states[i].receiverUnit.None?
    ensures r == Err(ForeignDeployment) ==>
              exists i :: 0 <= i < |states|
                && (states[i].receiverUnit != states[0].receiverUnit || states[i].configUnit != states[0].configUnit
                    || states[i].paymentHookUnit != states[0].paymentHookUnit
                    || states[i].pairPolicyId != states[0].pairPolicyId)
    ensures r == Err(ForeignValidator) ==>
              exists i :: 0 <= i < |states| && states[i].pairValidatorAddress != states[0].pairValidatorAddress
  {
    if states == [] || states[0].receiverUnit.None? {
      return Err(NoReceiver);
    }
    var head := states[0];
    var seenPairUnits: set<string> := {};
    for i := 0 to |states|
      invariant forall k :: 0 <= k < i ==> SameDeployment(states[k], head)
      invariant seenPairUnits == set k | 0 <= k < i :: states[k].pairUnit
      invariant forall j, k :: 0 <= j < k < i ==> states[j].pairUnit != states[k].pairUnit
    {
      if states[i].receiverUnit.None? {
        return Err(NoReceiver);
      }
      if !SameDeployment(states[i], head) {
        return Err(ForeignDeployment);
      }
      if states[i].pairUnit in seenPairUnits {
        var k :| 0 <= k < i && states[k].pairUnit == states[i].pairUnit;
        assert PairUnits(states)[k] == PairUnits(states)[i];
        return Err(DuplicatePair(states[i].pairUnit));
      }
      seenPairUnits := seenPairUnits + {states[i].pairUnit};
    }
    for i := 1 to |states|
      invariant forall k :: 0 <= k < i ==> states[k].pairValidatorAddress == head.pairValidatorAddress
    {
      if states[i].pairValidatorAddress != head.pairValidatorAddress {
        return Err(ForeignValidator);
      }
    }
    return Ok(());
  }

  // ----- the canonical order

  datatype Keyed = Keyed(update: Artifact, tokenName: string)

  function Normalized(updates: seq<Artifact>): Result<seq<Keyed>, HexError> {
    if updates == [] then Ok([])
    else
      var key :- NormalizeHex(updates[0].tokenName);
      var rest :- Normalized(updates[1..]);
      Ok([Keyed(updates[0], key)] + rest)
  }

  function Insert(k: Keyed, sorted: seq<Keyed>): seq<Keyed> {
    if sorted == [] || CompareHexBytewise(k.tokenName, sorted[0].tokenName) <= 0 then [k] + sorted
    else [sorted[0]] + Insert(k, sorted[1..])
  }

  /** What the library's stable sort returns; SortedOrderIsUnique shows that no other algorithm could differ. */
  function Sort(s: seq<Keyed>): seq<Keyed> {
    if s == [] then [] else Insert(s[0], Sort(s[1..]))
  }

  function Updates(s: seq<Keyed>): (updates: seq<Artifact>)
    ensures |updates| == |s|
  {
    seq(|s|, i requires 0 <= i < |s| => s[i].update)
  }

  function SortBatchUpdatesByPairTokenName(updates: seq<Artifact>): Result<seq<Artifact>, HexError> {
    var keyed :- Normalized(updates);
    Ok(Updates(Sort(keyed)))
  }

  predicate NotAbove(a: Keyed, b: Keyed) {
    CompareHexBytewise(a.tokenName, b.tokenName) <= 0
  }

  ghost predicate Ordered(s: seq<Keyed>) {
    forall i, j :: 0 <= i < j < |s| ==> NotAbove(s[i], s[j])
  }

  lemma NotAboveTransitive(a: Keyed, b: Keyed, c: Keyed)
    requires NotAbove(a, b) && NotAbove(b, c)
    ensures NotAbove(a, c)
  {
    StringOrderIsStrict(a.tokenName, b.tokenName);
    StringOrderIsStrict(b.tokenName, c.tokenName);
    StringOrderIsStrict(a.tokenName, c.tokenName);
    if StringLess(a.tokenName, b.tokenName) && StringLess(b.tokenName, c.tokenName) {
      StringLessTransitive(a.tokenName, b.tokenName, c.tokenName);
    }
  }

  lemma {:induction false} InsertKeepsOrder(k: Keyed, s: seq<Keyed>)
    requires Ordered(s)
    ensures Ordered(Insert(k, s)) && multiset(Insert(k, s)) == multiset(s) + multiset{k}
  {
    if s == [] {
    } else if NotAbove(k, s[0]) {
      forall j | 0 <= j < |s|
        ensures NotAbove(k, s[j])
      {
        if j > 0 {
          NotAboveTransitive(k, s[0], s[j]);
        }
      }
    } else {
      InsertKeepsOrder(k, s[1..]);
      assert s == [s[0]] + s[1..];
      StringOrderIsStrict(k.tokenName, s[0].tokenName);
      forall x | x in Insert(k, s[1..])
        ensures NotAbove(s[0], x)
      {
        assert x in multiset(Insert(k, s[1..]));
        assert x == k || x in multiset(s[1..]);
      }
    }
  }

  lemma {:induction false} SortOrders(s: seq<Keyed>)
    ensures Ordered(Sort(s)) && multiset(Sort(s)) == multiset(s)
  {
    if s != [] {
      SortOrders(s[1..]);
      InsertKeepsOrder(s[0], Sort(s[1..]));
      assert s == [s[0]] + s[1..];
    }
  }

  /** The entries with one key, in the order in which they are listed. */
  function WithKey(s: seq<Keyed>, key: string): seq<Keyed> {
    if s == [] then []
    else if s[0].tokenName == key then [s[0]] + WithKey(s[1..], key)
    else WithKey(s[1..], key)
  }

  lemma {:induction false} InsertIsStable(k: Keyed, s: seq<Keyed>, key: string)
    requires Ordered(s)
    ensures WithKey(Insert(k, s), key) == (if k.tokenName == key then [k] else []) + WithKey(s, key)
  {
    if s == [] || NotAbove(k, s[0]) {
      assert ([k] + s)[1..] == s;
    } else {
      InsertIsStable(k, s[1..], key);
      StringOrderIsStrict(k.tokenName, s[0].tokenName);
      assert Insert(k, s)[1..] == Insert(k, s[1..]);
    }
  }

  /** Entries with equal keys keep their order. */
  lemma {:induction false} SortIsStable(s: seq<Keyed>, key: string)
    ensures WithKey(Sort(s), key) == WithKey(s, key)
  {
    if s != [] {
      SortIsStable(s[1..], key);
      SortOrders(s[1..]);
      InsertIsStable(s[0], Sort(s[1..]), key);
    }
  }

  /** Order, content and stability determine a sequence. */
  lemma {:induction false} SortedOrderIsUnique(s: seq<Keyed>, t: seq<Keyed>)
    requires Ordered(s) && Ordered(t) && multiset(s) == multiset(t)
    requires forall key :: WithKey(s, key) == WithKey(t, key)
    ensures s == t
    decreases |s|
  {
    if s == [] {
      assert |multiset(t)| == 0;
    } else {
      assert |multiset(t)| > 0;
      SameHead(s, t);
      SameTails(s, t);
      SortedOrderIsUnique(s[1..], t[1..]);
      assert s == [s[0]] + s[1..] && t == [t[0]] + t[1..];
    }
  }

  lemma SameTails(s: seq<Keyed>, t: seq<Keyed>)
    requires s != [] && t != [] && s[0] == t[0] && multiset(s) == multiset(t)
    requires forall key :: WithKey(s, key) == WithKey(t, key)
    ensures multiset(s[1..]) == multiset(t[1..])
    ensures forall key :: WithKey(s[1..], key) == WithKey(t[1..], key)
  {
    RemoveAtMultiset(s, 0);
    RemoveAtMultiset(t, 0);
    assert RemoveAt(s, 0) == s[1..] && RemoveAt(t, 0) == t[1..];
    forall key
      ensures WithKey(s[1..], key) == WithKey(t[1..], key)
    {
      TailWithKey(s, key);
      TailWithKey(t, key);
    }
  }

  lemma TailWithKey(s: seq<Keyed>, key: string)
    requires s != []
    ensures WithKey(s[1..], key)
         == if s[0].tokenName == key then WithKey(s, key)[1..] else WithKey(s, key)
  {
  }

  lemma SameHead(s: seq<Keyed>, t: seq<Keyed>)
    requires s != [] && t != [] && Ordered(s) && Ordered(t) && multiset(s) == multiset(t)
    requires forall key :: WithKey(s, key) == WithKey(t, key)
    ensures s[0] == t[0]
  {
    assert s[0] in multiset(t) && t[0] in multiset(s);
    FirstIsLeast(s, t[0]);
    FirstIsLeast(t, s[0]);
    StringOrderIsStrict(s[0].tokenName, t[0].tokenName);
    var key := s[0].tokenName;
    assert WithKey(s, key)[0] == s[0] && WithKey(t, key)[0] == t[0];
  }

  lemma FirstIsLeast(s: seq<Keyed>, x: Keyed)
    requires Ordered(s) && x in s
    ensures NotAbove(s[0], x)
  {
    var i :| 0 <= i < |s| && s[i] == x;
    StringOrderIsStrict(x.tokenName, x.tokenName);
  }

  // ----- the order the coordinator demands

  /** The coordinator's walk: every decoded token name is strictly above the one before it. */
  ghost predicate StrictlyAscending(tokens: seq<seq<Byte>>) {
    forall i :: 0 <= i < |tokens| - 1 ==> CompareBytes(tokens[i], tokens[i + 1]) == -1
  }

  function DecodedKeys(s: seq<Keyed>): (tokens: seq<seq<Byte>>)
    requires forall k :: k in s ==> IsHex(k.tokenName)
    ensures |tokens| == |s|
  {
    seq(|s|, i requires 0 <= i < |s| => Decode(s[i].tokenName))
  }

  function Keys(s: seq<Keyed>): (keys: seq<string>)
    ensures |keys| == |s|
  {
    seq(|s|, i requires 0 <= i < |s| => s[i].tokenName)
  }

  lemma {:induction false} NormalizedKeys(updates: seq<Artifact>)
    requires Normalized(updates).Ok?
    ensures var keyed := Normalized(updates).value;
      && |keyed| == |updates|
      && forall i :: 0 <= i < |keyed| ==>
           && keyed[i].update == updates[i] && IsHex(keyed[i].tokenName)
           && NormalizeHex(updates[i].tokenName) == Ok(keyed[i].tokenName)
  {
    if updates != [] {
      NormalizedKeys(updates[1..]);
    }
  }

  lemma NeighboursAscend(a: Keyed, b: Keyed)
    requires IsHex(a.tokenName) && IsHex(b.tokenName) && NotAbove(a, b)
    ensures CompareBytes(Decode(a.tokenName), Decode(b.tokenName)) == -1 <==> a.tokenName != b.tokenName
  {
    StringOrderIsByteOrder(a.tokenName, b.tokenName);
    StringOrderIsStrict(a.tokenName, b.tokenName);
  }

  lemma OrderedAscends(t: seq<Keyed>)
    requires Ordered(t) && forall k :: k in t ==> IsHex(k.tokenName)
    ensures StrictlyAscending(DecodedKeys(t)) <==> Distinct(Keys(t))
  {
    forall i | 0 <= i < |t| - 1
      ensures CompareBytes(DecodedKeys(t)[i], DecodedKeys(t)[i + 1]) == -1 <==> Keys(t)[i] != Keys(t)[i + 1]
    {
      assert NotAbove(t[i], t[i + 1]);
      NeighboursAscend(t[i], t[i + 1]);
    }
    if StrictlyAscending(DecodedKeys(t)) {
      forall i, j | 0 <= i < j < |t|
        ensures Keys(t)[i] != Keys(t)[j]
      {
        assert Keys(t)[i] != Keys(t)[i + 1];
        if i + 1 < j {
          assert NotAbove(t[i], t[i + 1]) && NotAbove(t[i + 1], t[j]);
          StringOrderIsStrict(t[i].tokenName, t[i + 1].tokenName);
        }
      }
    }
  }

  /** The sorted batch is strictly ascending for the coordinator exactly when the normalized names differ. */
  lemma StrictExactlyWhenDistinct(s: seq<Keyed>)
    requires forall k :: k in s ==> IsHex(k.tokenName)
    ensures forall k :: k in Sort(s) ==> IsHex(k.tokenName)
    ensures StrictlyAscending(DecodedKeys(Sort(s))) <==> Distinct(Keys(s))
  {
    var t := Sort(s);
    SortOrders(s);
    forall k | k in t
      ensures IsHex(k.tokenName)
    {
      assert k in multiset(t);
    }
    DistinctKeysPermute(s, t);
    OrderedAscends(t);
  }

  /** Whether the keys are distinct does not depend on the order of the entries. */
  lemma DistinctKeysPermute(s: seq<Keyed>, t: seq<Keyed>)
    requires multiset(s) == multiset(t)
    ensures Distinct(Keys(s)) <==> Distinct(Keys(t))
  {
    KeyCounts(s);
    KeyCounts(t);
  }

  lemma KeyCounts(s: seq<Keyed>)
    ensures Distinct(Keys(s))
       <==> (forall x :: multiset(s)[x] <= 1)
            && forall x, y :: x in multiset(s) && y in multiset(s) && x != y ==> x.tokenName != y.tokenName
  {
    if Distinct(Keys(s)) {
      forall x
        ensures multiset(s)[x] <= 1
      {
        AtMostOnce(s, x);
      }
      forall x, y | x in multiset(s) && y in multiset(s) && x != y
        ensures x.tokenName != y.tokenName
      {
        var i :| 0 <= i < |s| && s[i] == x;
        var j :| 0 <= j < |s| && s[j] == y;
        assert Keys(s)[i] != Keys(s)[j];
      }
    } else {
      var i, j :| 0 <= i < j < |s| && Keys(s)[i] == Keys(s)[j];
      if s[i] == s[j] {
        assert s == s[..i] + [s[i]] + s[i + 1..j] + [s[j]] + s[j + 1..];
        assert multiset(s)[s[i]] >= 2;
      }
    }
  }

  lemma AtMostOnce(s: seq<Keyed>, x: Keyed)
    requires Distinct(Keys(s))
    ensures multiset(s)[x] <= 1
  {
    if x in s {
      var i :| 0 <= i < |s| && s[i] == x;
      assert s == s[..i] + [s[i]] + s[i + 1..];
      assert x !in s[..i] && x !in s[i + 1..] by {
        forall j | 0 <= j < |s| && j != i
          ensures s[j] != x
        {
          assert Keys(s)[j] != Keys(s)[i];
        }
      }
    }
  }

  /** The pair unit is the policy id followed by the token name, and the token name is in normal form. */
  ghost predicate Canonical(states: seq<Artifact>) {
    forall i :: 0 <= i < |states| ==>
      && states[i].pairUnit == states[i].pairPolicyId + states[i].tokenName
      && IsHex(states[i].tokenName)
  }

  ghost predicate NamesDiffer(states: seq<Artifact>) {
    forall i, j :: 0 <= i < j < |states| ==>
      NormalizeHex(states[i].tokenName) != NormalizeHex(states[j].tokenName)
  }

  /** A batch can be sorted exactly when every token name is hex. */
  lemma {:induction false} SortsExactlyWhenHex(states: seq<Artifact>)
    ensures Normalized(states).Ok? <==> forall i :: 0 <= i < |states| ==> NormalizeHex(states[i].tokenName).Ok?
  {
    if states != [] {
      SortsExactlyWhenHex(states[1..]);
      assert forall i :: 1 <= i < |states| ==> states[i] == states[1..][i - 1];
    }
  }

  /**
    For every batch that can be sorted: the result is a permutation, and the coordinator accepts its order exactly when
    no two normalized token names are equal. The duplicate check on the pair units is not what decides.
   */
  lemma SortedBatchIsStrictExactly(states: seq<Artifact>)
    requires Normalized(states).Ok?
    ensures var sorted := Sort(Normalized(states).value);
      && SortBatchUpdatesByPairTokenName(states) == Ok(Updates(sorted))
      && multiset(Updates(sorted)) == multiset(states)
      && (forall k :: k in sorted ==> IsHex(k.tokenName) && NormalizeHex(k.update.tokenName) == Ok(k.tokenName))
      && (StrictlyAscending(DecodedKeys(sorted)) <==> NamesDiffer(states))
  {
    var keyed := Normalized(states).value;
    NormalizedKeys(states);
    StrictExactlyWhenDistinct(keyed);
    SortOrders(keyed);
    UpdatesPermute(Sort(keyed), keyed);
    assert Updates(keyed) == states;
    forall k | k in Sort(keyed)
      ensures NormalizeHex(k.update.tokenName) == Ok(k.tokenName)
    {
      assert k in multiset(keyed);
    }
    KeysAreNames(states);
  }

  lemma KeysAreNames(states: seq<Artifact>)
    requires Normalized(states).Ok?
    ensures Distinct(Keys(Normalized(states).value)) <==> NamesDiffer(states)
  {
    NormalizedKeys(states);
    var keyed := Normalized(states).value;
    assert forall i :: 0 <= i < |states| ==> NormalizeHex(states[i].tokenName) == Ok(Keys(keyed)[i]);
    if NamesDiffer(states) {
      forall i, j | 0 <= i < j < |keyed|
        ensures Keys(keyed)[i] != Keys(keyed)[j]
      {
        assert NormalizeHex(states[i].tokenName) != NormalizeHex(states[j].tokenName);
      }
    }
  }

  /** An accepted batch whose names are in normal form sorts to a permutation of itself that the coordinator accepts. */
  lemma AcceptedBatchIsCanonical(states: seq<Artifact>)
    requires Compatible(states) && Canonical(states)
    ensures Normalized(states).Ok?
    ensures var sorted := Sort(Normalized(states).value);
      && SortBatchUpdatesByPairTokenName(states) == Ok(Updates(sorted))
      && multiset(Updates(sorted)) == multiset(states)
      && (forall k :: k in sorted ==> IsHex(k.tokenName) && k.tokenName == k.update.tokenName)
      && StrictlyAscending(DecodedKeys(sorted))
  {
    CanonicalNormalizes(states);
    SortedBatchIsStrictExactly(states);
    forall i, j | 0 <= i < j < |states|
      ensures NormalizeHex(states[i].tokenName) != NormalizeHex(states[j].tokenName)
    {
      assert PairUnits(states)[i] != PairUnits(states)[j];
      NormalFormsAreFixed(states[i].tokenName);
      NormalFormsAreFixed(states[j].tokenName);
    }
    forall k | k in Sort(Normalized(states).value)
      ensures k.tokenName == k.update.tokenName
    {
      SortedNameIsNormal(states, k);
      NormalFormsAreFixed(k.update.tokenName);
    }
  }

  lemma SortedNameIsNormal(states: seq<Artifact>, k: Keyed)
    requires Canonical(states) && Normalized(states).Ok? && k in Sort(Normalized(states).value)
    ensures IsHex(k.update.tokenName)
  {
    SortOrders(Normalized(states).value);
    NormalizedKeys(states);
    assert k in multiset(Normalized(states).value);
    assert k in Normalized(states).value;
  }

  lemma {:induction false} CanonicalNormalizes(states: seq<Artifact>)
    requires forall i :: 0 <= i < |states| ==> IsHex(states[i].tokenName)
    ensures Normalized(states).Ok?
    ensures var keyed := Normalized(states).value;
      |keyed| == |states| && forall i :: 0 <= i < |keyed| ==> keyed[i].tokenName == states[i].tokenName
  {
    if states != [] {
      NormalFormsAreFixed(states[0].tokenName);
      CanonicalNormalizes(states[1..]);
    }
  }

  lemma {:induction false} UpdatesPermute(s: seq<Keyed>, t: seq<Keyed>)
    requires multiset(s) == multiset(t)
    ensures multiset(Updates(s)) == multiset(Updates(t))
    decreases |s|
  {
    if s == [] {
      assert |multiset(t)| == 0;
    } else {
      assert s[0] in multiset(t);
      var i :| 0 <= i < |t| && t[i] == s[0];
      var t' := RemoveAt(t, i);
      RemoveAtMultiset(t, i);
      RemoveAtMultiset(s, 0);
      UpdatesPermute(RemoveAt(s, 0), t');
      UpdatesRemoveAt(s, 0);
      UpdatesRemoveAt(t, i);
      assert Updates(s)[0] == s[0].update && Updates(t)[i] == s[0].update;
      PutBack(multiset(Updates(s)), multiset(Updates(t)), s[0].update);
    }
  }

  lemma PutBack<T>(a: multiset<T>, b: multiset<T>, x: T)
    requires x in a && x in b && a - multiset{x} == b - multiset{x}
    ensures a == b
  {
    assert a == (a - multiset{x}) + multiset{x} && b == (b - multiset{x}) + multiset{x};
  }

  lemma UpdatesRemoveAt(s: seq<Keyed>, i: nat)
    requires i < |s|
    ensures multiset(Updates(RemoveAt(s, i))) == multiset(Updates(s)) - multiset{s[i].update}
  {
    assert Updates(RemoveAt(s, i)) == RemoveAt(Updates(s), i);
    RemoveAtMultiset(Updates(s), i);
  }

  /** Acceptance alone is not enough: token names that differ only in case pass the duplicate check. */
  lemma CaseTwinsPassTheDuplicateCheck(head: Artifact)
    requires head.receiverUnit.Some?
    ensures var upper := head.(tokenName := "AB", pairUnit := head.pairPolicyId + "AB");
      var lower := head.(tokenName := "ab", pairUnit := head.pairPolicyId + "ab");
      && Compatible([upper, lower])
      && Normalized([upper, lower]).Ok?
      && !Distinct(Keys(Normalized([upper, lower]).value))
  {
    var upper := head.(tokenName := "AB", pairUnit := head.pairPolicyId + "AB");
    var lower := head.(tokenName := "ab", pairUnit := head.pairPolicyId + "ab");
    assert upper.pairUnit[|head.pairPolicyId|] != lower.pairUnit[|head.pairPolicyId|];
    assert Lower("AB") == "ab" && Lower("ab") == "ab";
    assert Trim("AB") == "AB" && Trim("ab") == "ab";
    assert NormalizeHex("AB") == Ok("ab") && NormalizeHex("ab") == Ok("ab");
    NormalizedCons(lower, [], "ab");
    NormalizedCons(upper, [lower], "ab");
    var keyed := Normalized([upper, lower]).value;
    assert keyed == [Keyed(upper, "ab"), Keyed(lower, "ab")];
    assert Keys(keyed)[0] == Keys(keyed)[1];
  }

  lemma NormalizedCons(a: Artifact, rest: seq<Artifact>, key: string)
    requires NormalizeHex(a.tokenName) == Ok(key) && Normalized(rest).Ok?
    ensures Normalized([a] + rest) == Ok([Keyed(a, key)] + Normalized(rest).value)
  {
    assert ([a] + rest)[1..] == rest;
  }
}

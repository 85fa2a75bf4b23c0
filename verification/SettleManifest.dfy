/** The settle manifest against the loaded clients (preflight/settle.ts, preflight/settle-manifest.ts). */
module SettleManifest {
  import opened Prelude
  import opened Folds

  datatype Receiver = Receiver(policyId: string, assetName: string)

  datatype ManifestError = Empty | DuplicateReceiver(key: string) | LengthMismatch | ClientMissing(key: string)
                         | RowUnmatched(key: string)

  /** The lookup key of a row. */
  function Key(r: Receiver): string {
    r.policyId + "#" + r.assetName
  }

  function Keys(rows: seq<Receiver>): (keys: seq<string>)
    ensures |keys| == |rows| && forall i :: 0 <= i < |rows| ==> keys[i] == Key(rows[i])
  {
    seq(|rows|, i requires 0 <= i < |rows| => Key(rows[i]))
  }

  method AssertNonEmptyAndUnique(receivers: seq<Receiver>) returns (r: Result<(), ManifestError>)
    ensures r.Ok? <==> receivers != [] && Distinct(Keys(receivers))
    ensures r == Err(Empty) <==> receivers == []
  {
    if receivers == [] {
      return Err(Empty);
    }
    var seen: set<string> := {};
    for i := 0 to |receivers|
      invariant forall x :: x in seen <==> x in Keys(receivers)[..i]
      invariant forall j, k :: 0 <= j < k < i ==> Keys(receivers)[j] != Keys(receivers)[k]
    {
      var key := Key(receivers[i]);
      assert Keys(receivers)[..i + 1] == Keys(receivers)[..i] + [key];
      if key in seen {
        assert !Distinct(Keys(receivers));
        return Err(DuplicateReceiver(key));
      }
      seen := seen + {key};
    }
    return Ok(());
  }

  /** What every check together demands, read directly. */
  ghost predicate Accepted(manifest: seq<Receiver>, clients: seq<Receiver>) {
    && manifest != [] && Distinct(Keys(manifest)) && |manifest| == |clients|
    && (forall i :: 0 <= i < |clients| ==> Keys(clients)[i] in Keys(manifest))
    && (forall i :: 0 <= i < |manifest| ==> Keys(manifest)[i] in Keys(clients))
  }

  method AssertManifestMatchesClients(manifest: seq<Receiver>, clients: seq<Receiver>)
    returns (r: Result<(), ManifestError>)
    ensures r.Ok? <==> Accepted(manifest, clients)
  {
    var unique := AssertNonEmptyAndUnique(manifest);
    if unique.Err? {
      return unique;
    }
    if |manifest| != |clients| {
      return Err(LengthMismatch);
    }
    var manifestKeys := set k | k in Keys(manifest);
    for i := 0 to |clients|
      invariant forall k :: 0 <= k < i ==> Keys(clients)[k] in Keys(manifest)
    {
      if Key(clients[i]) !in manifestKeys {
        assert Keys(clients)[i] !in Keys(manifest);
        return Err(ClientMissing(Key(clients[i])));
      }
    }
    var clientKeys := set k | k in Keys(clients);
    for i := 0 to |manifest|
      invariant forall k :: 0 <= k < i ==> Keys(manifest)[k] in Keys(clients)
    {
      if Key(manifest[i]) !in clientKeys {
        assert Keys(manifest)[i] !in Keys(clients);
        return Err(RowUnmatched(Key(manifest[i])));
      }
    }
    return Ok(());
  }

  lemma OthersStay(t: seq<string>, i: nat, x: string)
    requires i < |t| && x in t && x != t[i]
    ensures x in RemoveAt(t, i)
  {
    RemoveAtMultiset(t, i);
    assert x in multiset(t) - multiset{t[i]};
    assert x in multiset(RemoveAt(t, i));
  }

  /** A distinct sequence inside another of the same length is a permutation of it. */
  lemma {:induction false} DistinctFillsUp(s: seq<string>, t: seq<string>)
    requires Distinct(s) && |s| == |t| && forall k :: 0 <= k < |s| ==> s[k] in t
    ensures multiset(s) == multiset(t)
    decreases |s|
  {
    if s != [] {
      var i: nat :| i < |t| && t[i] == s[0];
      forall k | 0 <= k < |s| - 1
        ensures s[1..][k] in RemoveAt(t, i)
      {
        OthersStay(t, i, s[k + 1]);
      }
      DistinctFillsUp(s[1..], RemoveAt(t, i));
      RemoveAtMultiset(t, i);
      assert s == [s[0]] + s[1..];
    }
  }

  lemma DistinctCounts(s: seq<string>)
    ensures Distinct(s) <==> forall x :: x in multiset(s) ==> multiset(s)[x] == 1
  {
    if Distinct(s) {
      forall x | x in multiset(s)
        ensures multiset(s)[x] == 1
      {
        var i: nat :| i < |s| && s[i] == x;
        RemoveAtMultiset(s, i);
        forall j | 0 <= j < |s| - 1
          ensures RemoveAt(s, i)[j] != x
        {
        }
        assert multiset(RemoveAt(s, i))[x] == 0;
      }
    } else {
      var i, j :| 0 <= i < j < |s| && s[i] == s[j];
      RemoveAtMultiset(s, i);
      assert RemoveAt(s, i)[j - 1] == s[i];
      assert s[i] in multiset(RemoveAt(s, i));
    }
  }

  /** Acceptance is a bijection: the two key lists are rearrangements of each other without repetition. */
  lemma AcceptedIsBijection(manifest: seq<Receiver>, clients: seq<Receiver>)
    ensures Accepted(manifest, clients)
       <==> manifest != [] && Distinct(Keys(clients)) && multiset(Keys(manifest)) == multiset(Keys(clients))
  {
    var m, c := Keys(manifest), Keys(clients);
    DistinctCounts(m);
    DistinctCounts(c);
    if Accepted(manifest, clients) {
      DistinctFillsUp(m, c);
    }
    if manifest != [] && Distinct(c) && multiset(m) == multiset(c) {
      assert |multiset(m)| == |multiset(c)|;
      forall x: string
        ensures x in m <==> x in c
      {
        assert x in multiset(m) <==> x in multiset(c);
      }
    }
  }

  /** Nothing can be counted twice: no client is loaded twice, and every sum over the Receivers agrees. */
  lemma AcceptedSumsAgree(manifest: seq<Receiver>, clients: seq<Receiver>, accrued: string -> int)
    requires Accepted(manifest, clients)
    ensures Distinct(clients)
    ensures Sum(Keys(manifest), accrued) == Sum(Keys(clients), accrued)
  {
    AcceptedIsBijection(manifest, clients);
    SumPermutation(Keys(manifest), Keys(clients), accrued);
    forall i, j | 0 <= i < j < |clients|
      ensures clients[i] != clients[j]
    {
      assert Keys(clients)[i] != Keys(clients)[j];
    }
  }

  lemma SeparatorPosition(a: Receiver, b: Receiver)
    requires '#' !in a.policyId && Key(a) == Key(b)
    ensures |a.policyId| <= |b.policyId|
  {
    assert forall i :: 0 <= i < |a.policyId| ==> Key(a)[i] == a.policyId[i];
    assert Key(b)[|b.policyId|] == '#';
  }

  /** A policy id is hex, so the key tells any two Receivers apart. */
  lemma KeyIsInjective(a: Receiver, b: Receiver)
    requires '#' !in a.policyId && '#' !in b.policyId
    ensures Key(a) == Key(b) ==> a == b
  {
    if Key(a) == Key(b) {
      SeparatorPosition(a, b);
      SeparatorPosition(b, a);
      assert a.policyId == Key(a)[..|a.policyId|] && b.policyId == Key(b)[..|b.policyId|];
      assert a.assetName == Key(a)[|a.policyId| + 1..] && b.assetName == Key(b)[|b.policyId| + 1..];
    }
  }
}

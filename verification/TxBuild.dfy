/** Building a transaction with a builder whose completion is not idempotent (core/tx-build.ts). */
module TxBuild {
  import opened Prelude
  import opened ProviderRetry

  datatype Output = Output(address: string, lovelace: int)

  datatype BuildError = Thrown(message: string) | NoAttempts

  /** How the library behaves on one attempt. */
  datatype Behaviour = Builds | FactoryThrows(message: string) | CompleteThrows(message: string)

  predicate IsTransientWasm(message: string) {
    || Includes(message, "detached ArrayBuffer") || Includes(message, "%TypedArray%") || Includes(message, "detached")
  }

  /** The first of the three tests never decides. */
  lemma DetachedCoversArrayBuffer(message: string)
    ensures IsTransientWasm(message) <==> Includes(message, "detached") || Includes(message, "%TypedArray%")
  {
    if Includes(message, "detached ArrayBuffer") {
      var whole := "detached ArrayBuffer";
      var i :| 0 <= i <= |message| - |whole| && OccursAt(message, whole, i);
      assert whole[..8] == "detached";
      assert message[i..i + 8] == message[i..i + |whole|][..8];
      assert OccursAt(message, "detached", i);
    }
  }

  /** The library's builder: every completion, failed or not, adds the requested outputs to the body. */
  class Builder {
    const requested: seq<Output>
    var body: seq<Output>
    var completions: nat

    constructor (requested: seq<Output>)
      ensures this.requested == requested && body == [] && completions == 0
    {
      this.requested := requested;
      body := [];
      completions := 0;
    }

    method Complete(failure: Option<string>) returns (r: Result<seq<Output>, string>)
      modifies this
      ensures body == old(body) + requested && completions == old(completions) + 1
      ensures r == if failure.Some? then Err(failure.value) else Ok(body)
    {
      body := body + requested;
      completions := completions + 1;
      return if failure.Some? then Err(failure.value) else Ok(body);
    }
  }

  /** Why a second attempt needs a new builder: the old one answers with every output twice. */
  method RecompletingDuplicates(requested: seq<Output>, message: string) returns (r: Result<seq<Output>, string>)
    ensures r == Ok(requested + requested)
  {
    var builder := new Builder(requested);
    var first := builder.Complete(Some(message));
    r := builder.Complete(None);
    assert [] + requested == requested;
  }

  function MessageOf(b: Behaviour): string
    requires !b.Builds?
  {
    b.message
  }

  predicate Retries(b: Behaviour) {
    !b.Builds? && IsTransientWasm(b.message)
  }

  /**
    Stops at the first attempt that does not fail transiently. Each builder is new and completed at most once, so a
    transaction that gets built has every output exactly once.
   */
  method CompleteWithRetry(requested: seq<Output>, library: nat -> Behaviour, attempts: int)
    returns (r: Result<seq<Output>, BuildError>, builders: seq<Builder>, tries: nat, sleeps: nat)
    ensures tries <= Max(0, attempts) && sleeps == Max(0, tries - 1)
    ensures forall i :: 0 <= i < tries - 1 ==> Retries(library(i))
    ensures tries < attempts ==> tries > 0 && !Retries(library(tries - 1))
    ensures tries == 0 ==> r == Err(NoAttempts)
    ensures tries > 0 ==>
              r == if library(tries - 1).Builds? then Ok(requested) else Err(Thrown(MessageOf(library(tries - 1))))
    ensures forall b :: b in builders ==> fresh(b) && b.requested == requested && b.completions == 1
    ensures Distinct(builders)
  {
    builders, tries, sleeps := [], 0, 0;
    r := Err(NoAttempts);
    while tries < attempts
      invariant tries <= Max(0, attempts)
      invariant sleeps == if tries == 0 then 0 else if tries < attempts then tries else tries - 1
      invariant forall i :: 0 <= i < tries ==> Retries(library(i))
      invariant r == if tries == 0 then Err(NoAttempts) else Err(Thrown(MessageOf(library(tries - 1))))
      invariant forall b :: b in builders ==> fresh(b) && b.requested == requested && b.completions == 1
      invariant Distinct(builders)
      decreases attempts - tries
    {
      var behaviour := library(tries);
      tries := tries + 1;
      if behaviour.FactoryThrows? {
        r := Err(Thrown(behaviour.message));
      } else {
        var builder := new Builder(requested);
        var failure := if behaviour.CompleteThrows? then Some(behaviour.message) else None;
        var built := builder.Complete(failure);
        builders := builders + [builder];
        if built.Ok? {
          assert builder.body == requested;
          return Ok(built.value), builders, tries, sleeps;
        }
        r := Err(Thrown(built.error));
      }
      if !Retries(behaviour) {
        return;
      }
      if tries < attempts {
        sleeps := sleeps + 1;
      }
    }
  }
}

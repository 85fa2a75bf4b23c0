/** The three-stage confirmation of a submitted transaction (core/tx-confirmation.ts), for every reply sequence. */
module TxConfirmation {
  import opened Prelude

  /** What the primary lookup can do; the timer always fires, sooner or later. */
  datatype PrimaryEvent = Answered(ok: bool) | Rejected | TimedOut

  /**
    One Koios call: a 2xx body whose first element is there or not, a status of 500 or more, or any other failure (other
    statuses, no answer, a body that is null or not JSON).
   */
  datatype KoiosReply = Seen | NotSeen | ServerError | OtherError

  datatype RestReply = Exists | Missing | Failure

  datatype Calls = Calls(koios: nat, koiosSleeps: nat, rest: nat, restSleeps: nat)

  // ----- the primary lookup

  /** The first event settles the promise, later ones are ignored. */
  method RacePrimary(events: seq<PrimaryEvent>) returns (confirmed: bool)
    requires TimedOut in events
    ensures confirmed <==> events[0] == Answered(true)
  {
    var settled := false;
    confirmed := false;
    for i := 0 to |events|
      invariant settled <==> i > 0
      invariant confirmed <==> i > 0 && events[0] == Answered(true)
    {
      if !settled {
        settled := true;
        confirmed := events[i] == Answered(true);
      }
    }
  }

  // ----- when the Koios stage gives up

  /** `koiosDownCount` after `n` replies. An empty answer leaves it as it is. */
  function DownCount(koios: nat -> KoiosReply, n: nat): nat {
    if n == 0 then 0
    else
      match koios(n - 1)
      case ServerError => DownCount(koios, n - 1) + 1
      case OtherError => 0
      case _ => DownCount(koios, n - 1)
  }

  predicate GivesUp(koios: nat -> KoiosReply, k: nat) {
    koios(k) == ServerError && DownCount(koios, k + 1) >= 3
  }

  predicate Ends(koios: nat -> KoiosReply, k: nat) {
    koios(k) == Seen || GivesUp(koios, k)
  }

  ghost predicate NoOtherError(koios: nat -> KoiosReply, from: nat, to: nat) {
    forall j :: from <= j < to ==> koios(j) != OtherError
  }

  /** A count of `n` stands for server errors at `n` places with no other error since the first of them. */
  lemma {:induction false} DownCountMeans(koios: nat -> KoiosReply, n: nat)
    ensures DownCount(koios, n) >= 1
       <==> exists a: nat :: a < n && koios(a) == ServerError && NoOtherError(koios, a, n)
    ensures DownCount(koios, n) >= 2
       <==> exists a: nat, b: nat ::
              a < b < n && koios(a) == koios(b) == ServerError && NoOtherError(koios, a, n)
  {
    if n > 0 {
      DownCountMeans(koios, n - 1);
      if DownCount(koios, n) >= 1 {
        var a := WitnessOne(koios, n);
      }
      if DownCount(koios, n) >= 2 {
        var a, b := WitnessTwo(koios, n);
      }
    }
  }

  lemma {:induction false} WitnessOne(koios: nat -> KoiosReply, n: nat) returns (a: nat)
    requires DownCount(koios, n) >= 1
    ensures a < n && koios(a) == ServerError && NoOtherError(koios, a, n)
  {
    if koios(n - 1) == ServerError {
      a := n - 1;
    } else {
      a := WitnessOne(koios, n - 1);
    }
  }

  lemma {:induction false} WitnessTwo(koios: nat -> KoiosReply, n: nat) returns (a: nat, b: nat)
    requires DownCount(koios, n) >= 2
    ensures a < b < n && koios(a) == koios(b) == ServerError && NoOtherError(koios, a, n)
  {
    if koios(n - 1) == ServerError {
      a := WitnessOne(koios, n - 1);
      b := n - 1;
    } else {
      a, b := WitnessTwo(koios, n - 1);
    }
  }

  /** The stage gives up at the third server error since the last other error, empty answers in between or not. */
  lemma GivesUpAtThirdServerError(koios: nat -> KoiosReply, k: nat)
    ensures GivesUp(koios, k)
       <==> koios(k) == ServerError
            && exists a: nat, b: nat ::
                 a < b < k && koios(a) == koios(b) == ServerError && NoOtherError(koios, a, k)
  {
    DownCountMeans(koios, k);
  }

  /** The progress message speaks of consecutive failures, but no two of the three need to be adjacent. */
  lemma GivesUpWithoutConsecutiveErrors() returns (koios: nat -> KoiosReply, k: nat)
    ensures GivesUp(koios, k)
    ensures forall j: nat :: j < k ==> !(koios(j) == ServerError && koios(j + 1) == ServerError)
  {
    koios := (j: nat) => if j % 2 == 0 then ServerError else NotSeen;
    k := 4;
    assert koios(0) == koios(2) == koios(4) == ServerError && NoOtherError(koios, 0, 4);
    GivesUpAtThirdServerError(koios, 4);
  }

  /**
    The message is right exactly when no answer came between the last three: at the reply that ends the stage, the two
    before it are server errors too if and only if neither of them was empty.
   */
  lemma ConsecutiveExactlyWhenNoneEmpty(koios: nat -> KoiosReply, k: nat)
    requires GivesUp(koios, k) && forall j: nat :: j < k ==> !Ends(koios, j)
    ensures k >= 2
    ensures koios(k - 1) == koios(k - 2) == ServerError <==> koios(k - 1) != NotSeen && koios(k - 2) != NotSeen
  {
    GivesUpAtThirdServerError(koios, k);
    var a: nat, b: nat :| a < b < k && koios(a) == koios(b) == ServerError && NoOtherError(koios, a, k);
    if koios(k - 1) != NotSeen && koios(k - 2) != NotSeen {
      assert !Ends(koios, k - 1) && !Ends(koios, k - 2);
      assert koios(k - 1) != OtherError && koios(k - 2) != OtherError;
    }
  }

  // ----- the loops

  /** Polls Koios until it ends or the attempts are used up. */
  method PollKoios(koios: nat -> KoiosReply, maxAttempts: int) returns (seen: bool, calls: nat, sleeps: nat)
    ensures calls <= Max(0, maxAttempts) && sleeps == Max(0, calls - 1)
    ensures forall j :: 0 <= j < calls - 1 ==> !Ends(koios, j)
    ensures calls < maxAttempts ==> calls > 0 && Ends(koios, calls - 1)
    ensures seen <==> calls > 0 && koios(calls - 1) == Seen
  {
    var downCount := 0;
    calls, sleeps := 0, 0;
    while calls < maxAttempts
      invariant calls <= Max(0, maxAttempts)
      invariant sleeps == if calls == 0 then 0 else if calls < maxAttempts then calls else calls - 1
      invariant downCount == DownCount(koios, calls)
      invariant forall j :: 0 <= j < calls ==> !Ends(koios, j)
      decreases maxAttempts - calls
    {
      var reply := koios(calls);
      calls := calls + 1;
      match reply {
        case Seen =>
          return true, calls, sleeps;
        case NotSeen =>
        case ServerError =>
          downCount := downCount + 1;
          if downCount >= 3 {
            return false, calls, sleeps;
          }
        case OtherError =>
          downCount := 0;
      }
      if calls < maxAttempts {
        sleeps := sleeps + 1;
      }
    }
    assert calls > 0 ==> !Ends(koios, calls - 1);
    return false, calls, sleeps;
  }

  method PollRest(rest: nat -> RestReply, maxAttempts: int) returns (seen: bool, calls: nat, sleeps: nat)
    ensures calls <= Max(0, maxAttempts) && sleeps == Max(0, calls - 1)
    ensures forall j :: 0 <= j < calls - 1 ==> rest(j) != Exists
    ensures calls < maxAttempts ==> calls > 0 && rest(calls - 1) == Exists
    ensures seen <==> calls > 0 && rest(calls - 1) == Exists
  {
    calls, sleeps := 0, 0;
    while calls < maxAttempts
      invariant calls <= Max(0, maxAttempts)
      invariant sleeps == if calls == 0 then 0 else if calls < maxAttempts then calls else calls - 1
      invariant forall j :: 0 <= j < calls ==> rest(j) != Exists
      decreases maxAttempts - calls
    {
      var reply := rest(calls);
      calls := calls + 1;
      if reply == Exists {
        return true, calls, sleeps;
      }
      if calls < maxAttempts {
        sleeps := sleeps + 1;
      }
    }
    return false, calls, sleeps;
  }

  /** How many Koios calls a reply sequence allows: up to the first ending reply, within the budget. */
  ghost predicate KoiosStage(koios: nat -> KoiosReply, maxAttempts: int, calls: nat) {
    && calls <= Max(0, maxAttempts)
    && (forall j :: 0 <= j < calls - 1 ==> !Ends(koios, j))
    && (calls < maxAttempts ==> calls > 0 && Ends(koios, calls - 1))
  }

  ghost predicate RestStage(rest: nat -> RestReply, maxAttempts: int, calls: nat) {
    && calls <= Max(0, maxAttempts)
    && (forall j :: 0 <= j < calls - 1 ==> rest(j) != Exists)
    && (calls < maxAttempts ==> calls > 0 && rest(calls - 1) == Exists)
  }

  /** Confirmed exactly when the primary lookup, a Koios reply or a REST reply saw the transaction, in budget. */
  method AwaitTxConfirmation(events: seq<PrimaryEvent>, koios: nat -> KoiosReply, rest: nat -> RestReply,
                             koiosMaxAttempts: int, restMaxAttempts: int)
    returns (confirmed: bool, calls: Calls)
    requires TimedOut in events
    ensures confirmed
       <==> events[0] == Answered(true)
            || (exists k :: 0 <= k < calls.koios && koios(k) == Seen)
            || (exists k :: 0 <= k < calls.rest && rest(k) == Exists)
    ensures events[0] == Answered(true) ==> calls == Calls(0, 0, 0, 0)
    ensures events[0] != Answered(true) ==> KoiosStage(koios, koiosMaxAttempts, calls.koios)
    ensures events[0] != Answered(true) ==>
              if exists k :: 0 <= k < calls.koios && koios(k) == Seen then calls.rest == 0
              else RestStage(rest, restMaxAttempts, calls.rest)
    ensures calls.koiosSleeps == Max(0, calls.koios - 1) && calls.restSleeps == Max(0, calls.rest - 1)
  {
    var primaryConfirmed := RacePrimary(events);
    if primaryConfirmed {
      return true, Calls(0, 0, 0, 0);
    }
    var seen, koiosCalls, koiosSleeps := PollKoios(koios, koiosMaxAttempts);
    if seen {
      return true, Calls(koiosCalls, koiosSleeps, 0, 0);
    }
    forall k: nat | k < koiosCalls
      ensures koios(k) != Seen
    {
      assert k < koiosCalls - 1 ==> !Ends(koios, k);
    }
    var found, restCalls, restSleeps := PollRest(rest, restMaxAttempts);
    return found, Calls(koiosCalls, koiosSleeps, restCalls, restSleeps);
  }

  /** A transaction that Koios sees is confirmed unless three server errors came first without another error between. */
  lemma KoiosSightingCounts(koios: nat -> KoiosReply, maxAttempts: int, calls: nat, k: nat)
    requires KoiosStage(koios, maxAttempts, calls) && k < maxAttempts && koios(k) == Seen
    requires forall j :: 0 <= j < k ==> !GivesUp(koios, j)
    ensures exists j :: 0 <= j < calls && koios(j) == Seen
  {
    if calls <= k {
      assert Ends(koios, calls - 1);
    }
  }
}

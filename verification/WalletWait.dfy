/**
  Waiting for a wallet to settle (core/chain-helpers.ts). The provider is an arbitrary sequence of replies; a poll is
  an index into it.
 */
module WalletWait {
  import opened Prelude

  datatype Reply = Listed(utxos: seq<OutRef>) | Failed

  datatype WaitError = StillListed

  /** The transaction's inputs that the wallet held before, in the order of the inputs. */
  function SpentWalletOutRefs(previous: seq<OutRef>, inputs: seq<OutRef>): seq<OutRef> {
    if inputs == [] then []
    else
      var front := SpentWalletOutRefs(previous, inputs[..|inputs| - 1]);
      var last := inputs[|inputs| - 1];
      if last in previous then front + [last] else front
  }

  lemma {:induction false} SpentIsIntersection(previous: seq<OutRef>, inputs: seq<OutRef>)
    ensures forall o :: o in SpentWalletOutRefs(previous, inputs) <==> o in inputs && o in previous
  {
    if inputs != [] {
      SpentIsIntersection(previous, inputs[..|inputs| - 1]);
      assert inputs == inputs[..|inputs| - 1] + [inputs[|inputs| - 1]];
    }
  }

  method ComputeSpentWalletOutRefs(previous: seq<OutRef>, inputs: seq<OutRef>) returns (spent: seq<OutRef>)
    ensures spent == SpentWalletOutRefs(previous, inputs)
  {
    spent := [];
    for i := 0 to |inputs|
      invariant spent == SpentWalletOutRefs(previous, inputs[..i])
    {
      assert inputs[..i + 1][..i] == inputs[..i];
      if inputs[i] in previous {
        spent := spent + [inputs[i]];
      }
    }
    assert inputs[..|inputs|] == inputs;
  }

  /** A listing without any wallet input that the transaction spent. */
  predicate Settles(reply: Reply, previous: seq<OutRef>, inputs: seq<OutRef>) {
    reply.Listed? && forall o :: o in reply.utxos ==> !(o in inputs && o in previous)
  }

  /** Returns the first settled listing among the allowed polls, and sleeps once after every poll before it. */
  method WaitForWalletSettlement(previous: seq<OutRef>, inputs: seq<OutRef>, poll: nat -> Reply, maxAttempts: int)
    returns (r: Result<seq<OutRef>, WaitError>, sleeps: nat)
    ensures forall k :: 0 <= k < sleeps ==> !Settles(poll(k), previous, inputs)
    ensures r.Ok? ==> sleeps < maxAttempts && Settles(poll(sleeps), previous, inputs) && poll(sleeps) == Listed(r.value)
    ensures r.Err? ==> sleeps == Max(0, maxAttempts)
  {
    var spent := ComputeSpentWalletOutRefs(previous, inputs);
    SpentIsIntersection(previous, inputs);
    sleeps := 0;
    while sleeps < maxAttempts
      invariant sleeps <= Max(0, maxAttempts)
      invariant forall k :: 0 <= k < sleeps ==> !Settles(poll(k), previous, inputs)
    {
      var reply := poll(sleeps);
      if reply.Listed? {
        var stillVisible := exists o :: o in spent && o in reply.utxos;
        if !stillVisible {
          return Ok(reply.utxos), sleeps;
        }
      }
      sleeps := sleeps + 1;
    }
    return Err(StillListed), sleeps;
  }

  // ----- what the wait covers

  /**
    The wait is over only when all wallet inputs are gone, exactly if all of them were in the snapshot it was given. The
    documentation takes this for granted.
   */
  lemma WaitCoversExactlyTheSnapshot(snapshot: seq<OutRef>, walletInputs: seq<OutRef>)
    ensures (forall reply, o :: Settles(reply, snapshot, walletInputs) && o in walletInputs ==> o !in reply.utxos)
       <==> forall o :: o in walletInputs ==> o in snapshot
  {
    forall o | o in walletInputs && o !in snapshot
      ensures exists reply :: Settles(reply, snapshot, walletInputs) && o in reply.utxos
    {
      assert Settles(Listed([o]), snapshot, walletInputs);
    }
  }

  /** A wait that covers no input is over with the first answer. */
  lemma NothingCoveredNothingAwaited(reply: Reply, snapshot: seq<OutRef>, inputs: seq<OutRef>)
    requires reply.Listed? && forall o :: o in inputs ==> o !in snapshot
    ensures SpentWalletOutRefs(snapshot, inputs) == [] && Settles(reply, snapshot, inputs)
  {
    SpentIsIntersection(snapshot, inputs);
    assert SpentWalletOutRefs(snapshot, inputs) != [] ==>
      SpentWalletOutRefs(snapshot, inputs)[0] in SpentWalletOutRefs(snapshot, inputs);
  }

  // ----- commands one after another

  /**
    A command takes a snapshot of the wallet at one poll, selects its inputs at the same or a later one, and waits until
    a third for the snapshot's inputs to disappear.
   */
  datatype Command = Command(snapshotAt: nat, builtAt: nat, inputs: seq<OutRef>, settledAt: nat)

  predicate Lists(listing: nat -> Reply, t: nat, o: OutRef) {
    listing(t).Listed? && o in listing(t).utxos
  }

  predicate SpendsFromWallet(listing: nat -> Reply, c: Command, o: OutRef) {
    o in c.inputs && Lists(listing, c.builtAt, o)
  }

  ghost predicate Reads(listing: nat -> Reply, c: Command) {
    c.snapshotAt <= c.builtAt && listing(c.snapshotAt).Listed? && listing(c.builtAt).Listed?
  }

  ghost predicate WaitsOut(listing: nat -> Reply, c: Command) {
    && c.builtAt < c.settledAt && listing(c.snapshotAt).Listed?
    && Settles(listing(c.settledAt), listing(c.snapshotAt).utxos, c.inputs)
  }

  /** Commands in sequence; the last one need not have settled. */
  ghost predicate CommandRun(listing: nat -> Reply, commands: seq<Command>) {
    && (forall i :: 0 <= i < |commands| ==> Reads(listing, commands[i]))
    && (forall i :: 0 <= i < |commands| - 1 ==> WaitsOut(listing, commands[i]))
    && forall i, j :: 0 <= i < j < |commands| ==> commands[i].settledAt < commands[j].builtAt
  }

  /** Every wallet input of every command was in the snapshot that its wait goes by. */
  ghost predicate SnapshotsCover(listing: nat -> Reply, commands: seq<Command>) {
    forall i, o :: 0 <= i < |commands| && SpendsFromWallet(listing, commands[i], o) ==>
      Lists(listing, commands[i].snapshotAt, o)
  }

  ghost predicate SpendsTwice(listing: nat -> Reply, commands: seq<Command>) {
    exists i, j, o :: 0 <= i < j < |commands|
      && SpendsFromWallet(listing, commands[i], o) && SpendsFromWallet(listing, commands[j], o)
  }

  /**
    Executes commands for as long as the provider answers and every wait succeeds. Each takes a snapshot of its own, or
    all of them share the first one, as the burns of one repair run do.
   */
  method RunCommands(listing: nat -> Reply, inputs: seq<seq<OutRef>>, maxAttempts: int, shared: bool)
    returns (done: seq<Command>)
    ensures |done| <= |inputs| && forall i :: 0 <= i < |done| ==> done[i].inputs == inputs[i]
    ensures CommandRun(listing, done) && forall i :: 0 <= i < |done| ==> WaitsOut(listing, done[i])
    ensures forall i :: 0 <= i < |done| ==> done[i].snapshotAt == if shared then 0 else done[i].builtAt
    ensures !shared ==> SnapshotsCover(listing, done)
  {
    var clock: nat := 0;
    done := [];
    while |done| < |inputs|
      invariant |done| <= |inputs|
      invariant forall i :: 0 <= i < |done| ==> done[i].inputs == inputs[i]
      invariant CommandRun(listing, done)
      invariant forall i :: 0 <= i < |done| ==> WaitsOut(listing, done[i]) && done[i].settledAt < clock
      invariant forall i :: 0 <= i < |done| ==> done[i].snapshotAt == if shared then 0 else done[i].builtAt
    {
      var snapshotAt := if shared then 0 else clock;
      var snapshot := listing(snapshotAt);
      if snapshot.Failed? || listing(clock).Failed? {
        return;
      }
      var from := clock + 1;
      var r, sleeps :=
        WaitForWalletSettlement(snapshot.utxos, inputs[|done|], (k: nat) => listing(from + k), maxAttempts);
      if r.Err? {
        return;
      }
      done := done + [Command(snapshotAt, clock, inputs[|done|], from + sleeps)];
      clock := from + sleeps + 1;
    }
  }

  /** A provider that has dropped an output it once listed does not list it again. */
  ghost predicate NeverRelists(listing: nat -> Reply) {
    forall r, s, t, o :: 0 <= r < s < t && Lists(listing, r, o) && listing(s).Listed? && Lists(listing, t, o) ==>
      Lists(listing, s, o)
  }

  /** No wallet output is spent by two commands of one run. */
  lemma RunNeverSpendsTwice(listing: nat -> Reply, commands: seq<Command>)
    requires NeverRelists(listing) && CommandRun(listing, commands) && SnapshotsCover(listing, commands)
    ensures !SpendsTwice(listing, commands)
  {
    forall i, j, o | 0 <= i < j < |commands| && SpendsFromWallet(listing, commands[i], o)
      ensures !SpendsFromWallet(listing, commands[j], o)
    {
      var a, b := commands[i], commands[j];
      assert Lists(listing, a.snapshotAt, o);
      assert WaitsOut(listing, a) && a.settledAt < b.builtAt;
      assert !Lists(listing, a.settledAt, o);
      assert Lists(listing, b.builtAt, o) && Lists(listing, a.builtAt, o) ==> Lists(listing, a.settledAt, o);
    }
  }

  /** With covering snapshots, double spends are impossible in every run exactly if the provider never re-lists. */
  lemma NeverSpendsTwiceExactlyWithoutRelisting(listing: nat -> Reply)
    ensures NeverRelists(listing)
       <==> forall commands :: CommandRun(listing, commands) && SnapshotsCover(listing, commands) ==>
              !SpendsTwice(listing, commands)
  {
    if NeverRelists(listing) {
      forall commands | CommandRun(listing, commands) && SnapshotsCover(listing, commands)
        ensures !SpendsTwice(listing, commands)
      {
        RunNeverSpendsTwice(listing, commands);
      }
    } else {
      var r: nat, s: nat, t: nat, o :| r < s < t && Lists(listing, r, o) && listing(s).Listed? && Lists(listing, t, o)
                                       && !Lists(listing, s, o);
      var a, b := Command(r, r, [o], s), Command(t, t, [o], t);
      var commands := [a, b];
      assert WaitsOut(listing, a) && Reads(listing, a) && Reads(listing, b);
      assert CommandRun(listing, commands) && SnapshotsCover(listing, commands);
      assert SpendsFromWallet(listing, commands[0], o) && SpendsFromWallet(listing, commands[1], o);
    }
  }

  /**
    The cover is needed as well: two commands that share one snapshot both spend the change of an earlier transaction,
    although the provider never re-lists anything.
   */
  lemma SharedSnapshotSpendsTwice(a: OutRef, change: OutRef) returns (listing: nat -> Reply, commands: seq<Command>)
    requires a != change
    ensures NeverRelists(listing) && CommandRun(listing, commands)
    ensures forall i :: 0 <= i < |commands| ==> commands[i].snapshotAt == 0
    ensures !SnapshotsCover(listing, commands) && SpendsTwice(listing, commands)
  {
    listing := (t: nat) => if t == 0 then Listed([a]) else Listed([change]);
    commands := [Command(0, 0, [a], 1), Command(0, 2, [change], 3), Command(0, 4, [change], 5)];
    assert SpendsFromWallet(listing, commands[1], change) && SpendsFromWallet(listing, commands[2], change);
    assert !Lists(listing, commands[1].snapshotAt, change);
  }
}

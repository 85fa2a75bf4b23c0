/** Reading a block range in chunks (feeder/scripts/scan-dia-intents.ts, feeder/scripts/sanity-check-feeds.ts). */
module LogScan {
  import opened Prelude

  /** An IntentRegistered event. A field that could not be decoded is missing. */
  datatype Log = Log(symbol: string, intentHash: string, block: Option<nat>, price: Option<int>, timestamp: Option<int>)

  datatype Blocks = Blocks(low: int, high: int)

  /** A numeric flag: only positive numbers replace the fallback. */
  function ParseFlag(parsed: Option<int>, fallback: int): (n: int)
    ensures fallback > 0 ==> n > 0
    ensures parsed.Some? && parsed.value > 0 ==> n == parsed.value
  {
    if parsed.Some? && parsed.value > 0 then parsed.value else fallback
  }

  // ----- one whole-range scan, and the same in chunks

  /** All logs of the blocks from `low` to `high`, in block order. */
  function Range(logsAt: int -> seq<Log>, low: int, high: int): seq<Log>
    decreases high - low + 1
  {
    if low > high then [] else logsAt(low) + Range(logsAt, low + 1, high)
  }

  lemma {:induction false} RangeSplits(logsAt: int -> seq<Log>, low: int, mid: int, high: int)
    requires low <= mid + 1 <= high + 1
    ensures Range(logsAt, low, high) == Range(logsAt, low, mid) + Range(logsAt, mid + 1, high)
    decreases mid - low + 1
  {
    if low <= mid {
      RangeSplits(logsAt, low + 1, mid, high);
    }
  }

  /** Consecutive ranges of at most `chunk` blocks that start at `from` and end at `head`, with no gap or overlap. */
  ghost predicate Tiles(ranges: seq<Blocks>, from: int, head: int, chunk: int) {
    && (forall i :: 0 <= i < |ranges| ==> ranges[i].low <= ranges[i].high < ranges[i].low + chunk)
    && (forall i :: 0 <= i < |ranges| - 1 ==> ranges[i].high + 1 == ranges[i + 1].low)
    && (ranges == [] <==> from > head)
    && (ranges != [] ==> ranges[0].low == from && ranges[|ranges| - 1].high == head)
  }

  lemma TileOneMore(ranges: seq<Blocks>, from: int, cursor: int, to: int, chunk: int)
    requires Tiles(ranges, from, cursor - 1, chunk) && from <= cursor <= to < cursor + chunk
    ensures Tiles(ranges + [Blocks(cursor, to)], from, to, chunk)
  {
  }

  /** All blocks so far lie in full chunks, of which the last may have been cut short at the head. */
  predicate ChunksUsed(blocks: int, n: nat, chunk: int) {
    blocks <= n * chunk && (n == 0 || (n - 1) * chunk < blocks)
  }

  lemma OneMoreChunk(blocks: int, n: nat, chunk: int, next: int)
    requires chunk >= 1 && blocks == n * chunk && blocks < next <= blocks + chunk
    ensures ChunksUsed(next, n + 1, chunk)
    ensures next == blocks + chunk ==> next == (n + 1) * chunk
  {
    assert (n + 1) * chunk == n * chunk + chunk;
  }

  lemma ChunkCount(blocks: int, n: nat, chunk: int)
    requires chunk >= 1 && blocks >= 0 && ChunksUsed(blocks, n, chunk)
    ensures n == (blocks + chunk - 1) / chunk
  {
    if n == 0 {
      DivUnique(blocks + chunk - 1, chunk, 0, chunk - 1);
    } else {
      assert n * chunk == (n - 1) * chunk + chunk && n * chunk == chunk * n;
      DivUnique(blocks + chunk - 1, chunk, n, blocks + chunk - 1 - chunk * n);
    }
  }

  method ScanInChunks(logsAt: int -> seq<Log>, from: int, head: int, chunk: int)
    returns (allLogs: seq<Log>, ranges: seq<Blocks>)
    requires chunk >= 1
    ensures allLogs == Range(logsAt, from, head)
    ensures Tiles(ranges, from, head, chunk)
    ensures |ranges| == (Max(0, head - from + 1) + chunk - 1) / chunk
  {
    allLogs, ranges := [], [];
    var cursor := from;
    while cursor <= head
      invariant from <= cursor <= Max(from, head + 1)
      invariant allLogs == Range(logsAt, from, cursor - 1)
      invariant Tiles(ranges, from, cursor - 1, chunk)
      invariant ChunksUsed(cursor - from, |ranges|, chunk)
      invariant cursor <= head ==> cursor - from == |ranges| * chunk
      decreases head - cursor + 1
    {
      var to := if cursor + chunk - 1 < head then cursor + chunk - 1 else head;
      RangeSplits(logsAt, from, cursor - 1, to);
      allLogs := allLogs + Range(logsAt, cursor, to);
      TileOneMore(ranges, from, cursor, to, chunk);
      OneMoreChunk(cursor - from, |ranges|, chunk, to + 1 - from);
      ranges := ranges + [Blocks(cursor, to)];
      cursor := to + 1;
    }
    ChunkCount(cursor - from, |ranges|, chunk);
    if from > head {
      EmptyTiles(ranges, from, cursor - 1, head, chunk);
    }
  }

  lemma EmptyTiles(ranges: seq<Blocks>, from: int, head: int, lower: int, chunk: int)
    requires Tiles(ranges, from, head, chunk) && from > head && lower <= head
    ensures Tiles(ranges, from, lower, chunk)
  {
  }

  // ----- counts and block spans per symbol

  datatype SymbolGroup = SymbolGroup(sampleHash: string, count: nat, firstBlock: nat, lastBlock: nat)

  function BlockOf(log: Log): (block: nat)
    ensures log.block == Some(block) || (log.block.None? && block == 0)
  {
    if log.block.Some? then log.block.value else 0
  }

  function WithSymbol(logs: seq<Log>, symbol: string): seq<Log> {
    if logs == [] then []
    else
      var front := WithSymbol(logs[..|logs| - 1], symbol);
      if logs[|logs| - 1].symbol == symbol then front + [logs[|logs| - 1]] else front
  }

  /** A group describes the logs of one symbol: how many, the first, and the extreme blocks. */
  ghost predicate Describes(g: SymbolGroup, logs: seq<Log>) {
    && logs != [] && g.sampleHash == logs[0].intentHash && g.count == |logs|
    && (forall i :: 0 <= i < |logs| ==> g.firstBlock <= BlockOf(logs[i]) <= g.lastBlock)
    && (exists i :: 0 <= i < |logs| && BlockOf(logs[i]) == g.firstBlock)
    && (exists i :: 0 <= i < |logs| && BlockOf(logs[i]) == g.lastBlock)
  }

  ghost predicate GroupsOf(groups: map<string, SymbolGroup>, logs: seq<Log>) {
    forall s :: if s in groups then Describes(groups[s], WithSymbol(logs, s)) else WithSymbol(logs, s) == []
  }

  /** The group of a symbol after one more of its logs. */
  function Counted(g: Option<SymbolGroup>, log: Log): SymbolGroup {
    if g.None? then SymbolGroup(log.intentHash, 1, BlockOf(log), BlockOf(log))
    else
      g.value.(count := g.value.count + 1, firstBlock := Min(BlockOf(log), g.value.firstBlock),
               lastBlock := Max(BlockOf(log), g.value.lastBlock))
  }

  lemma GroupGrows(g: SymbolGroup, logs: seq<Log>, log: Log)
    requires Describes(g, logs)
    ensures Describes(Counted(Some(g), log), logs + [log])
  {
    var all := logs + [log];
    assert all[|logs|] == log;
    var i :| 0 <= i < |logs| && BlockOf(logs[i]) == g.firstBlock;
    var j :| 0 <= j < |logs| && BlockOf(logs[j]) == g.lastBlock;
    assert BlockOf(all[i]) == g.firstBlock && BlockOf(all[j]) == g.lastBlock;
  }

  lemma GroupStarts(log: Log)
    ensures Describes(Counted(None, log), [log])
  {
    assert BlockOf([log][0]) == BlockOf(log);
  }

  function Lookup(groups: map<string, SymbolGroup>, symbol: string): Option<SymbolGroup> {
    if symbol in groups then Some(groups[symbol]) else None
  }

  lemma OneMoreLog(groups: map<string, SymbolGroup>, logs: seq<Log>, log: Log)
    requires GroupsOf(groups, logs)
    ensures GroupsOf(groups[log.symbol := Counted(Lookup(groups, log.symbol), log)], logs + [log])
  {
    assert (logs + [log])[..|logs|] == logs;
    if log.symbol in groups {
      GroupGrows(groups[log.symbol], WithSymbol(logs, log.symbol), log);
    } else {
      GroupStarts(log);
      assert WithSymbol(logs, log.symbol) == [];
    }
    var next := groups[log.symbol := Counted(Lookup(groups, log.symbol), log)];
    forall s
      ensures if s in next then Describes(next[s], WithSymbol(logs + [log], s)) else WithSymbol(logs + [log], s) == []
    {
      if s != log.symbol {
        assert WithSymbol(logs + [log], s) == WithSymbol(logs, s);
        assert s in next <==> s in groups;
      }
    }
  }

  method GroupBySymbol(allLogs: seq<Log>) returns (groups: map<string, SymbolGroup>)
    ensures GroupsOf(groups, allLogs)
  {
    groups := map[];
    for i := 0 to |allLogs|
      invariant GroupsOf(groups, allLogs[..i])
    {
      var log := allLogs[i];
      OneMoreLog(groups, allLogs[..i], log);
      assert allLogs[..i + 1] == allLogs[..i] + [log];
      var g := if log.symbol in groups then groups[log.symbol]
               else SymbolGroup(log.intentHash, 0, BlockOf(log), 0);
      g := g.(count := g.count + 1);
      if BlockOf(log) < g.firstBlock {
        g := g.(firstBlock := BlockOf(log));
      }
      if BlockOf(log) > g.lastBlock {
        g := g.(lastBlock := BlockOf(log));
      }
      assert g == Counted(Lookup(groups, log.symbol), log);
      groups := groups[log.symbol := g];
    }
    assert allLogs[..|allLogs|] == allLogs;
  }

  /** The description fixes the group, so any two scans of the same logs agree. */
  lemma GroupsAreDetermined(g: map<string, SymbolGroup>, h: map<string, SymbolGroup>, logs: seq<Log>)
    requires GroupsOf(g, logs) && GroupsOf(h, logs)
    ensures g == h
  {
    hide WithSymbol, Describes;
    forall s
      ensures s in g <==> s in h
      ensures s in g ==> g[s] == h[s]
    {
      assert if s in g then Describes(g[s], WithSymbol(logs, s)) else WithSymbol(logs, s) == [];
      assert if s in h then Describes(h[s], WithSymbol(logs, s)) else WithSymbol(logs, s) == [];
      if s in g {
        SameGroup(g[s], g[s], WithSymbol(logs, s));
      }
      if s in h {
        SameGroup(h[s], if s in g then g[s] else h[s], WithSymbol(logs, s));
      }
    }
  }

  lemma SameGroup(g: SymbolGroup, h: SymbolGroup, logs: seq<Log>)
    requires Describes(g, logs) && Describes(h, logs)
    ensures logs != [] && g == h
  {
  }

  // ----- the newest reading per symbol

  datatype Reading = Reading(intentHash: string, price: int, timestampSec: int)

  predicate Usable(log: Log) {
    log.price.Some? && log.timestamp.Some?
  }

  /** Log `i` is the newest usable one of its symbol, and the first with that timestamp. */
  ghost predicate NewestAt(logs: seq<Log>, i: int) {
    && 0 <= i < |logs| && logs[i].price.Some? && logs[i].timestamp.Some?
    && forall j ::
      0 <= j < |logs| && logs[j].price.Some? && logs[j].timestamp.Some? && logs[j].symbol == logs[i].symbol ==>
        if j < i then logs[j].timestamp.value < logs[i].timestamp.value
        else logs[j].timestamp.value <= logs[i].timestamp.value
  }

  function ReadingOf(log: Log): Reading
    requires Usable(log)
  {
    Reading(log.intentHash, log.price.value, log.timestamp.value)
  }

  ghost predicate ReadFrom(logs: seq<Log>, i: int, symbol: string, r: Reading) {
    && NewestAt(logs, i) && logs[i].symbol == symbol && r.intentHash == logs[i].intentHash
    && Some(r.price) == logs[i].price && Some(r.timestampSec) == logs[i].timestamp
  }

  ghost predicate NewestReadings(readings: map<string, Reading>, logs: seq<Log>) {
    && (forall j :: 0 <= j < |logs| && logs[j].price.Some? && logs[j].timestamp.Some? ==> logs[j].symbol in readings)
    && forall s :: s in readings ==> exists i :: ReadFrom(logs, i, s, readings[s])
  }

  /** What one more log does to the readings. */
  function Note(readings: map<string, Reading>, log: Log): map<string, Reading> {
    if !Usable(log) then readings
    else if log.symbol !in readings || log.timestamp.value > readings[log.symbol].timestampSec
    then readings[log.symbol := ReadingOf(log)]
    else readings
  }

  lemma NoteKeepsNewest(readings: map<string, Reading>, logs: seq<Log>, log: Log)
    requires NewestReadings(readings, logs)
    ensures NewestReadings(Note(readings, log), logs + [log])
  {
    var all := logs + [log];
    forall s | s in Note(readings, log)
      ensures exists i :: ReadFrom(all, i, s, Note(readings, log)[s])
    {
      var replaced := Usable(log) && log.symbol == s
        && (s !in readings || log.timestamp.value > readings[s].timestampSec);
      if s in readings {
        var i :| ReadFrom(logs, i, s, readings[s]);
        assert !replaced ==> ReadFrom(all, i, s, readings[s]);
      }
      assert replaced ==> ReadFrom(all, |logs|, s, ReadingOf(log));
    }
  }

  /** Scans in chunks and keeps the newest reading per symbol: the same as over one whole-range scan. */
  method BuildSourceReadings(logsAt: int -> seq<Log>, from: int, head: int, chunk: int)
    returns (readings: map<string, Reading>)
    requires chunk >= 1
    ensures NewestReadings(readings, Range(logsAt, from, head))
  {
    hide NewestAt, Note;
    readings := map[];
    var cursor := from;
    while cursor <= head
      invariant cursor <= Max(from, head + 1) && from <= cursor
      invariant NewestReadings(readings, Range(logsAt, from, cursor - 1))
      decreases head - cursor + 1
    {
      var to := if cursor + chunk - 1 < head then cursor + chunk - 1 else head;
      var logs := Range(logsAt, cursor, to);
      ghost var seen := Range(logsAt, from, cursor - 1);
      assert seen + logs[..0] == seen;
      for i := 0 to |logs|
        invariant NewestReadings(readings, seen + logs[..i])
      {
        NoteKeepsNewest(readings, seen + logs[..i], logs[i]);
        assert seen + logs[..i] + [logs[i]] == seen + logs[..i + 1];
        readings := Note(readings, logs[i]);
      }
      assert logs[..|logs|] == logs;
      RangeSplits(logsAt, from, cursor - 1, to);
      cursor := to + 1;
    }
  }

  lemma NewestIsUnique(logs: seq<Log>, i: int, j: int)
    requires NewestAt(logs, i) && NewestAt(logs, j) && logs[i].symbol == logs[j].symbol
    ensures i == j
  {
  }

  lemma SameReading(a: map<string, Reading>, b: map<string, Reading>, logs: seq<Log>, s: string)
    requires NewestReadings(a, logs) && NewestReadings(b, logs) && s in a
    ensures s in b && a[s] == b[s]
  {
    var i :| ReadFrom(logs, i, s, a[s]);
    assert s in b;
    var j :| ReadFrom(logs, j, s, b[s]);
    NewestIsUnique(logs, i, j);
  }

  lemma NewestReadingsAreDetermined(a: map<string, Reading>, b: map<string, Reading>, logs: seq<Log>)
    requires NewestReadings(a, logs) && NewestReadings(b, logs)
    ensures a == b
  {
    forall s
      ensures s in a ==> s in b && a[s] == b[s]
      ensures s in b ==> s in a
    {
      if s in a {
        SameReading(a, b, logs, s);
      }
      if s in b {
        SameReading(b, a, logs, s);
      }
    }
  }

  const DEFAULT_CHUNK := 500

  /** Whatever two values the chunk flag is given, the groups and the readings are the same. */
  method ChunkSizeDoesNotMatter(logsAt: int -> seq<Log>, from: int, head: int, flag: Option<int>, other: Option<int>)
    returns (groups: map<string, SymbolGroup>, groups': map<string, SymbolGroup>,
             readings: map<string, Reading>, readings': map<string, Reading>)
    ensures groups == groups' && GroupsOf(groups, Range(logsAt, from, head))
    ensures readings == readings' && NewestReadings(readings, Range(logsAt, from, head))
  {
    var chunk, chunk' := ParseFlag(flag, DEFAULT_CHUNK), ParseFlag(other, DEFAULT_CHUNK);
    var logs, ranges := ScanInChunks(logsAt, from, head, chunk);
    groups := GroupBySymbol(logs);
    logs, ranges := ScanInChunks(logsAt, from, head, chunk');
    groups' := GroupBySymbol(logs);
    GroupsAreDetermined(groups, groups', logs);
    readings := BuildSourceReadings(logsAt, from, head, chunk);
    readings' := BuildSourceReadings(logsAt, from, head, chunk');
    NewestReadingsAreDetermined(readings, readings', logs);
  }
}

/**
 * The bounded debug-log buffers of the floating debug tool's collector.
 * Three lists are kept, each bounded by its own capacity:
 *  - main-thread blocks are inserted at the front and trimmed from the back,
 *    so they are held newest first;
 *  - CPU-usage snapshots and UI interactions are appended at the back and
 *    trimmed from the front, so they are held oldest first.
 * The wall clock and the JVM's active-thread count are parameters of the
 * recording operations.
 */
module DebugInfo {
  import opened Decimal

  /** The kinds of UI interaction that are logged. */
  datatype InteractionType = Tap | Scroll | LongPress | Drag

  datatype MainThreadBlock = MainThreadBlock(timestamp: int, duration: int, stackTrace: string)

  /** `cpuUsagePercent` is a Kotlin `Float`, modelled as a real number. */
  datatype CpuUsageSnapshot = CpuUsageSnapshot(timestamp: int, cpuUsagePercent: real, totalThreads: int)

  datatype UIInteraction = UIInteraction(timestamp: int, interactionType: InteractionType, x: real, y: real, details: string)

  const DEFAULT_MAX_BLOCKS: int := 20
  const DEFAULT_MAX_CPU_SNAPSHOTS: int := 50
  const DEFAULT_MAX_UI_INTERACTIONS: int := 100

  const TOTAL_BLOCKS_KEY: string := "Total Blocks Recorded"
  const CPU_SNAPSHOTS_KEY: string := "CPU Snapshots"
  const UI_INTERACTIONS_KEY: string := "UI Interactions"

  /** Kotlin's `coerceAtLeast`: `value`, raised to `minimum` when below it. */
  function CoerceAtLeast(value: int, minimum: int): (r: int)
    ensures r >= minimum
    ensures value >= minimum ==> r == value
    ensures value < minimum ==> r == minimum
  {
    if value < minimum then minimum else value
  }

  /** Kotlin's `coerceIn`: `value` clamped into `[lo, hi]`; Kotlin rejects an empty range. */
  function CoerceIn(value: real, lo: real, hi: real): (r: real)
    requires lo <= hi
    ensures lo <= r <= hi
    ensures lo <= value <= hi ==> r == value
    ensures value < lo ==> r == lo
    ensures value > hi ==> r == hi
  {
    if value < lo then lo else if value > hi then hi else value
  }

  function Min(a: int, b: int): int {
    if a <= b then a else b
  }

  /** The first `n` elements of `s` (all of it when it is shorter): what trimming from the back leaves. */
  function KeepFirst<T>(s: seq<T>, n: nat): (r: seq<T>)
    ensures |r| == Min(|s|, n)
    ensures r == s[..|r|]
  {
    if |s| <= n then s else s[..n]
  }

  /** The last `n` elements of `s` (all of it when it is shorter): what trimming from the front leaves. */
  function KeepLast<T>(s: seq<T>, n: nat): (r: seq<T>)
    ensures |r| == Min(|s|, n)
    ensures r == s[|s| - |r|..]
  {
    if |s| <= n then s else s[|s| - n..]
  }

  function Reverse<T>(s: seq<T>): (r: seq<T>)
    ensures |r| == |s|
    ensures forall i :: 0 <= i < |s| ==> r[i] == s[|s| - 1 - i]
  {
    if s == [] then [] else Reverse(s[1..]) + [s[0]]
  }

  /** A buffer already within its capacity is left as it is by either trim. */
  lemma KeepWithinCapacity<T>(s: seq<T>, n: nat)
    requires |s| <= n
    ensures KeepFirst(s, n) == s && KeepLast(s, n) == s
  {
  }

  /**
   * Inserting at the front of a newest-first buffer and trimming: the new
   * element is at index 0, and the earlier elements follow it in their
   * order, shifted right by one, the last one dropped when the buffer was full.
   */
  lemma PrependKeepsNewestFirst<T>(x: T, s: seq<T>, n: nat)
    requires n >= 1
    ensures KeepFirst([x] + s, n)[0] == x
    ensures KeepFirst([x] + s, n)[1..] == KeepFirst(s, n - 1)
  {
    var r := KeepFirst([x] + s, n);
    assert r[1..] == ([x] + s)[1..|r|];
    assert ([x] + s)[1..|r|] == s[..|r| - 1];
  }

  /**
   * Appending to an oldest-first buffer and trimming: the new element is
   * last, preceded by the latest earlier elements in their order.
   */
  lemma AppendKeepsOldestFirst<T>(s: seq<T>, x: T, n: nat)
    requires n >= 1
    ensures KeepLast(s + [x], n)[|KeepLast(s + [x], n)| - 1] == x
    ensures KeepLast(s + [x], n)[..|KeepLast(s + [x], n)| - 1] == KeepLast(s, n - 1)
  {
    var t := s + [x];
    var r := KeepLast(t, n);
    assert r[..|r| - 1] == t[|t| - |r|..|t| - 1];
    assert t[|t| - |r|..|t| - 1] == s[|s| - (|r| - 1)..];
  }

  /** Trimming to `n` after putting more in front drops exactly what trimming before would have. */
  lemma KeepFirstAbsorbs<T>(a: seq<T>, b: seq<T>, n: nat)
    ensures KeepFirst(a + KeepFirst(b, n), n) == KeepFirst(a + b, n)
  {
    var l := KeepFirst(a + b, n);
    var r := KeepFirst(a + KeepFirst(b, n), n);
    assert |l| == |r|;
    forall i | 0 <= i < |l|
      ensures l[i] == r[i]
    {
      if i >= |a| {
        assert l[i] == b[i - |a|];
        assert r[i] == KeepFirst(b, n)[i - |a|];
      }
    }
  }

  /** Trimming to `n` after putting more at the back drops exactly what trimming before would have. */
  lemma KeepLastAbsorbs<T>(a: seq<T>, b: seq<T>, n: nat)
    ensures KeepLast(KeepLast(a, n) + b, n) == KeepLast(a + b, n)
  {
    var l := KeepLast(a + b, n);
    var r := KeepLast(KeepLast(a, n) + b, n);
    var ka := KeepLast(a, n);
    assert |l| == |r|;
    forall i | 0 <= i < |l|
      ensures l[i] == r[i]
    {
      var j := |a + b| - |l| + i;
      if j >= |a| {
        assert l[i] == b[j - |a|];
        assert r[i] == (ka + b)[|ka + b| - |r| + i];
      } else {
        assert l[i] == a[j];
        assert r[i] == ka[|ka| + |b| - |r| + i];
      }
    }
  }

  /** The block buffer after recording each of `xs` in turn into `buffer` with capacity `n`. */
  function RecordAllFront<T>(buffer: seq<T>, xs: seq<T>, n: nat): seq<T>
    decreases |xs|
  {
    if xs == [] then buffer else RecordAllFront(KeepFirst([xs[0]] + buffer, n), xs[1..], n)
  }

  /** An appending buffer after recording each of `xs` in turn into `buffer` with capacity `n`. */
  function RecordAllBack<T>(buffer: seq<T>, xs: seq<T>, n: nat): seq<T>
    decreases |xs|
  {
    if xs == [] then buffer else RecordAllBack(KeepLast(buffer + [xs[0]], n), xs[1..], n)
  }

  /**
   * Any run of block recordings leaves the `n` newest blocks, newest first,
   * followed by the earlier contents: the first `n` of `xs` reversed, then `buffer`.
   * For a collector's own buffer, which `Valid()` keeps within its capacity,
   * `KeepWithinCapacity` gives `KeepFirst(buffer, n) == buffer`.
   */
  lemma {:induction false} RecordAllFrontIsNewestFirst<T>(buffer: seq<T>, xs: seq<T>, n: nat)
    ensures RecordAllFront(KeepFirst(buffer, n), xs, n) == KeepFirst(Reverse(xs) + buffer, n)
    decreases |xs|
  {
    if xs == [] {
    } else {
      var x, rest := xs[0], xs[1..];
      calc {
        RecordAllFront(KeepFirst(buffer, n), xs, n);
        RecordAllFront(KeepFirst([x] + KeepFirst(buffer, n), n), rest, n);
        { KeepFirstAbsorbs([x], buffer, n); }
        RecordAllFront(KeepFirst([x] + buffer, n), rest, n);
        { RecordAllFrontIsNewestFirst([x] + buffer, rest, n); }
        KeepFirst(Reverse(rest) + ([x] + buffer), n);
        { assert Reverse(xs) == Reverse(rest) + [x];
          assert Reverse(rest) + ([x] + buffer) == Reverse(xs) + buffer; }
        KeepFirst(Reverse(xs) + buffer, n);
      }
    }
  }

  /**
   * Any run of appending recordings leaves the `n` latest elements of the
   * earlier contents followed by `xs`, in insertion order. For a collector's
   * own buffer, `KeepWithinCapacity` gives `KeepLast(buffer, n) == buffer`.
   */
  lemma {:induction false} RecordAllBackIsFifo<T>(buffer: seq<T>, xs: seq<T>, n: nat)
    ensures RecordAllBack(KeepLast(buffer, n), xs, n) == KeepLast(buffer + xs, n)
    decreases |xs|
  {
    if xs == [] {
      assert buffer + xs == buffer;
    } else {
      var x, rest := xs[0], xs[1..];
      calc {
        RecordAllBack(KeepLast(buffer, n), xs, n);
        RecordAllBack(KeepLast(KeepLast(buffer, n) + [x], n), rest, n);
        { KeepLastAbsorbs(buffer, [x], n); }
        RecordAllBack(KeepLast(buffer + [x], n), rest, n);
        { RecordAllBackIsFifo(buffer + [x], rest, n); }
        KeepLast((buffer + [x]) + rest, n);
        { assert (buffer + [x]) + rest == buffer + xs; }
        KeepLast(buffer + xs, n);
      }
    }
  }

  predicate InPercentRange(p: real) {
    0.0 <= p <= 100.0
  }

  /** The snapshot `recordCpuUsage` stores: the percentage clamped to 0..100. */
  function Snapshot(timestamp: int, cpuUsagePercent: real, totalThreads: int): (s: CpuUsageSnapshot)
    ensures InPercentRange(s.cpuUsagePercent)
    ensures InPercentRange(cpuUsagePercent) ==> s.cpuUsagePercent == cpuUsagePercent
  {
    CpuUsageSnapshot(timestamp, CoerceIn(cpuUsagePercent, 0.0, 100.0), totalThreads)
  }

  /** The buffer-count entries of the general debug information. */
  function BufferCounts(blocks: nat, snapshots: nat, interactions: nat): (info: map<string, string>)
    ensures info.Keys == {TOTAL_BLOCKS_KEY, CPU_SNAPSHOTS_KEY, UI_INTERACTIONS_KEY}
  {
    map[TOTAL_BLOCKS_KEY := NatToString(blocks),
        CPU_SNAPSHOTS_KEY := NatToString(snapshots),
        UI_INTERACTIONS_KEY := NatToString(interactions)]
  }

  /** The reported counts determine the three buffer sizes. */
  lemma BufferCountsReportSizes(b1: nat, c1: nat, u1: nat, b2: nat, c2: nat, u2: nat)
    requires BufferCounts(b1, c1, u1) == BufferCounts(b2, c2, u2)
    ensures b1 == b2 && c1 == c2 && u1 == u2
  {
    var m1, m2 := BufferCounts(b1, c1, u1), BufferCounts(b2, c2, u2);
    assert m1[TOTAL_BLOCKS_KEY] == m2[TOTAL_BLOCKS_KEY];
    assert m1[CPU_SNAPSHOTS_KEY] == m2[CPU_SNAPSHOTS_KEY];
    assert m1[UI_INTERACTIONS_KEY] == m2[UI_INTERACTIONS_KEY];
    NatToStringInjective(b1, b2);
    NatToStringInjective(c1, c2);
    NatToStringInjective(u1, u2);
  }

  /** The collector, a process-wide singleton in the source. */
  class DebugInfoCollector {
    var mainThreadBlocks: seq<MainThreadBlock>
    var cpuUsageHistory: seq<CpuUsageSnapshot>
    var uiInteractions: seq<UIInteraction>
    var maxBlocks: int
    var maxCpuSnapshots: int
    var maxUiInteractions: int

    /** Every capacity is at least 1, every buffer within its capacity, every percentage in 0..100. */
    ghost predicate Valid()
      reads this
    {
      && maxBlocks >= 1 && maxCpuSnapshots >= 1 && maxUiInteractions >= 1
      && |mainThreadBlocks| <= maxBlocks
      && |cpuUsageHistory| <= maxCpuSnapshots
      && |uiInteractions| <= maxUiInteractions
      && forall i :: 0 <= i < |cpuUsageHistory| ==> InPercentRange(cpuUsageHistory[i].cpuUsagePercent)
    }

    constructor ()
      ensures Valid()
      ensures mainThreadBlocks == [] && cpuUsageHistory == [] && uiInteractions == []
      ensures maxBlocks == DEFAULT_MAX_BLOCKS
      ensures maxCpuSnapshots == DEFAULT_MAX_CPU_SNAPSHOTS
      ensures maxUiInteractions == DEFAULT_MAX_UI_INTERACTIONS
    {
      mainThreadBlocks := [];
      cpuUsageHistory := [];
      uiInteractions := [];
      maxBlocks := DEFAULT_MAX_BLOCKS;
      maxCpuSnapshots := DEFAULT_MAX_CPU_SNAPSHOTS;
      maxUiInteractions := DEFAULT_MAX_UI_INTERACTIONS;
    }

    /** The `maxBlocks` setter: the capacity raised to at least 1, then the blocks re-trimmed. */
    method SetMaxBlocks(value: int)
      requires Valid()
      modifies this
      ensures Valid()
      ensures maxBlocks == CoerceAtLeast(value, 1)
      ensures mainThreadBlocks == KeepFirst(old(mainThreadBlocks), maxBlocks)
      ensures cpuUsageHistory == old(cpuUsageHistory) && uiInteractions == old(uiInteractions)
      ensures maxCpuSnapshots == old(maxCpuSnapshots) && maxUiInteractions == old(maxUiInteractions)
    {
      maxBlocks := CoerceAtLeast(value, 1);
      TrimMainThreadBlocks();
    }

    /** The `maxCpuSnapshots` setter: the capacity raised to at least 1, then the history re-trimmed. */
    method SetMaxCpuSnapshots(value: int)
      requires Valid()
      modifies this
      ensures Valid()
      ensures maxCpuSnapshots == CoerceAtLeast(value, 1)
      ensures cpuUsageHistory == KeepLast(old(cpuUsageHistory), maxCpuSnapshots)
      ensures mainThreadBlocks == old(mainThreadBlocks) && uiInteractions == old(uiInteractions)
      ensures maxBlocks == old(maxBlocks) && maxUiInteractions == old(maxUiInteractions)
    {
      maxCpuSnapshots := CoerceAtLeast(value, 1);
      TrimCpuHistory();
    }

    /** The `maxUiInteractions` setter: the capacity raised to at least 1, then the interactions re-trimmed. */
    method SetMaxUiInteractions(value: int)
      requires Valid()
      modifies this
      ensures Valid()
      ensures maxUiInteractions == CoerceAtLeast(value, 1)
      ensures uiInteractions == KeepLast(old(uiInteractions), maxUiInteractions)
      ensures mainThreadBlocks == old(mainThreadBlocks) && cpuUsageHistory == old(cpuUsageHistory)
      ensures maxBlocks == old(maxBlocks) && maxCpuSnapshots == old(maxCpuSnapshots)
    {
      maxUiInteractions := CoerceAtLeast(value, 1);
      TrimUiInteractions();
    }

    /** `recordMainThreadBlock`: the new block goes in front, then the oldest beyond capacity are dropped. */
    method RecordMainThreadBlock(now: int, duration: int, stackTrace: string)
      requires Valid()
      modifies this
      ensures Valid()
      ensures mainThreadBlocks == KeepFirst([MainThreadBlock(now, duration, stackTrace)] + old(mainThreadBlocks), maxBlocks)
      ensures mainThreadBlocks[0] == MainThreadBlock(now, duration, stackTrace)
      ensures mainThreadBlocks[1..] == KeepFirst(old(mainThreadBlocks), maxBlocks - 1)
      ensures cpuUsageHistory == old(cpuUsageHistory) && uiInteractions == old(uiInteractions)
      ensures maxBlocks == old(maxBlocks) && maxCpuSnapshots == old(maxCpuSnapshots)
      ensures maxUiInteractions == old(maxUiInteractions)
    {
      var block := MainThreadBlock(now, duration, stackTrace);
      mainThreadBlocks := [block] + mainThreadBlocks;
      TrimMainThreadBlocks();
      PrependKeepsNewestFirst(block, old(mainThreadBlocks), maxBlocks);
    }

    /** Drops blocks from the back while there are more than `maxBlocks`. */
    method TrimMainThreadBlocks()
      requires maxBlocks >= 0
      modifies this
      ensures cpuUsageHistory == old(cpuUsageHistory) && uiInteractions == old(uiInteractions)
      ensures maxBlocks == old(maxBlocks) && maxCpuSnapshots == old(maxCpuSnapshots)
      ensures maxUiInteractions == old(maxUiInteractions)
      ensures mainThreadBlocks == KeepFirst(old(mainThreadBlocks), maxBlocks)
    {
      while |mainThreadBlocks| > maxBlocks
        invariant |mainThreadBlocks| >= Min(|old(mainThreadBlocks)|, maxBlocks)
        invariant mainThreadBlocks == old(mainThreadBlocks)[..|mainThreadBlocks|]
        invariant cpuUsageHistory == old(cpuUsageHistory) && uiInteractions == old(uiInteractions)
        invariant maxBlocks == old(maxBlocks) && maxCpuSnapshots == old(maxCpuSnapshots)
        invariant maxUiInteractions == old(maxUiInteractions)
        decreases |mainThreadBlocks|
      {
        mainThreadBlocks := mainThreadBlocks[..|mainThreadBlocks| - 1];
      }
    }

    /** `getRecentMainThreadBlocks`: a copy of the blocks, newest first. */
    method GetRecentMainThreadBlocks() returns (blocks: seq<MainThreadBlock>)
      ensures blocks == mainThreadBlocks
    {
      blocks := mainThreadBlocks;
    }

    method ClearMainThreadBlocks()
      modifies this
      ensures mainThreadBlocks == []
      ensures cpuUsageHistory == old(cpuUsageHistory) && uiInteractions == old(uiInteractions)
      ensures maxBlocks == old(maxBlocks) && maxCpuSnapshots == old(maxCpuSnapshots)
      ensures maxUiInteractions == old(maxUiInteractions)
      ensures old(Valid()) ==> Valid()
    {
      mainThreadBlocks := [];
    }

    /** `recordCpuUsage`: the clamped snapshot is appended, then the oldest beyond capacity are dropped. */
    method RecordCpuUsage(now: int, cpuUsagePercent: real, activeThreads: int)
      requires Valid()
      modifies this
      ensures Valid()
      ensures cpuUsageHistory == KeepLast(old(cpuUsageHistory) + [Snapshot(now, cpuUsagePercent, activeThreads)], maxCpuSnapshots)
      ensures cpuUsageHistory[|cpuUsageHistory| - 1] == Snapshot(now, cpuUsagePercent, activeThreads)
      ensures cpuUsageHistory[..|cpuUsageHistory| - 1] == KeepLast(old(cpuUsageHistory), maxCpuSnapshots - 1)
      ensures mainThreadBlocks == old(mainThreadBlocks) && uiInteractions == old(uiInteractions)
      ensures maxBlocks == old(maxBlocks) && maxCpuSnapshots == old(maxCpuSnapshots)
      ensures maxUiInteractions == old(maxUiInteractions)
    {
      var snapshot := Snapshot(now, cpuUsagePercent, activeThreads);
      cpuUsageHistory := cpuUsageHistory + [snapshot];
      TrimCpuHistory();
      AppendKeepsOldestFirst(old(cpuUsageHistory), snapshot, maxCpuSnapshots);
    }

    /** Drops snapshots from the front while there are more than `maxCpuSnapshots`. */
    method TrimCpuHistory()
      requires maxCpuSnapshots >= 0
      modifies this
      ensures mainThreadBlocks == old(mainThreadBlocks) && uiInteractions == old(uiInteractions)
      ensures maxBlocks == old(maxBlocks) && maxCpuSnapshots == old(maxCpuSnapshots)
      ensures maxUiInteractions == old(maxUiInteractions)
      ensures cpuUsageHistory == KeepLast(old(cpuUsageHistory), maxCpuSnapshots)
    {
      while |cpuUsageHistory| > maxCpuSnapshots
        invariant |cpuUsageHistory| >= Min(|old(cpuUsageHistory)|, maxCpuSnapshots)
        invariant cpuUsageHistory == old(cpuUsageHistory)[|old(cpuUsageHistory)| - |cpuUsageHistory|..]
        invariant mainThreadBlocks == old(mainThreadBlocks) && uiInteractions == old(uiInteractions)
        invariant maxBlocks == old(maxBlocks) && maxCpuSnapshots == old(maxCpuSnapshots)
        invariant maxUiInteractions == old(maxUiInteractions)
        decreases |cpuUsageHistory|
      {
        cpuUsageHistory := cpuUsageHistory[1..];
      }
    }

    /** `getCpuUsageHistory`: a copy of the snapshots, oldest first. */
    method GetCpuUsageHistory() returns (history: seq<CpuUsageSnapshot>)
      ensures history == cpuUsageHistory
    {
      history := cpuUsageHistory;
    }

    method ClearCpuUsageHistory()
      modifies this
      ensures cpuUsageHistory == []
      ensures mainThreadBlocks == old(mainThreadBlocks) && uiInteractions == old(uiInteractions)
      ensures maxBlocks == old(maxBlocks) && maxCpuSnapshots == old(maxCpuSnapshots)
      ensures maxUiInteractions == old(maxUiInteractions)
      ensures old(Valid()) ==> Valid()
    {
      cpuUsageHistory := [];
    }

    /** `recordUiInteraction`: the interaction is appended, then the oldest beyond capacity are dropped. */
    method RecordUiInteraction(now: int, interactionType: InteractionType, x: real, y: real, details: string := "")
      requires Valid()
      modifies this
      ensures Valid()
      ensures uiInteractions == KeepLast(old(uiInteractions) + [UIInteraction(now, interactionType, x, y, details)], maxUiInteractions)
      ensures uiInteractions[|uiInteractions| - 1] == UIInteraction(now, interactionType, x, y, details)
      ensures uiInteractions[..|uiInteractions| - 1] == KeepLast(old(uiInteractions), maxUiInteractions - 1)
      ensures mainThreadBlocks == old(mainThreadBlocks) && cpuUsageHistory == old(cpuUsageHistory)
      ensures maxBlocks == old(maxBlocks) && maxCpuSnapshots == old(maxCpuSnapshots)
      ensures maxUiInteractions == old(maxUiInteractions)
    {
      var interaction := UIInteraction(now, interactionType, x, y, details);
      uiInteractions := uiInteractions + [interaction];
      TrimUiInteractions();
      AppendKeepsOldestFirst(old(uiInteractions), interaction, maxUiInteractions);
    }

    /** Drops interactions from the front while there are more than `maxUiInteractions`. */
    method TrimUiInteractions()
      requires maxUiInteractions >= 0
      modifies this
      ensures mainThreadBlocks == old(mainThreadBlocks) && cpuUsageHistory == old(cpuUsageHistory)
      ensures maxBlocks == old(maxBlocks) && maxCpuSnapshots == old(maxCpuSnapshots)
      ensures maxUiInteractions == old(maxUiInteractions)
      ensures uiInteractions == KeepLast(old(uiInteractions), maxUiInteractions)
    {
      while |uiInteractions| > maxUiInteractions
        invariant |uiInteractions| >= Min(|old(uiInteractions)|, maxUiInteractions)
        invariant uiInteractions == old(uiInteractions)[|old(uiInteractions)| - |uiInteractions|..]
        invariant mainThreadBlocks == old(mainThreadBlocks) && cpuUsageHistory == old(cpuUsageHistory)
        invariant maxBlocks == old(maxBlocks) && maxCpuSnapshots == old(maxCpuSnapshots)
        invariant maxUiInteractions == old(maxUiInteractions)
        decreases |uiInteractions|
      {
        uiInteractions := uiInteractions[1..];
      }
    }

    /** `getUiInteractions`: a copy of the interactions, oldest first. */
    method GetUiInteractions() returns (interactions: seq<UIInteraction>)
      ensures interactions == uiInteractions
    {
      interactions := uiInteractions;
    }

    method ClearUiInteractions()
      modifies this
      ensures uiInteractions == []
      ensures mainThreadBlocks == old(mainThreadBlocks) && cpuUsageHistory == old(cpuUsageHistory)
      ensures maxBlocks == old(maxBlocks) && maxCpuSnapshots == old(maxCpuSnapshots)
      ensures maxUiInteractions == old(maxUiInteractions)
      ensures old(Valid()) ==> Valid()
    {
      uiInteractions := [];
    }

    /** `clearAllLogs`: all three buffers emptied, the capacities kept. */
    method ClearAllLogs()
      modifies this
      ensures mainThreadBlocks == [] && cpuUsageHistory == [] && uiInteractions == []
      ensures maxBlocks == old(maxBlocks) && maxCpuSnapshots == old(maxCpuSnapshots)
      ensures maxUiInteractions == old(maxUiInteractions)
      ensures old(Valid()) ==> Valid()
    {
      ClearMainThreadBlocks();
      ClearCpuUsageHistory();
      ClearUiInteractions();
    }

    /** The buffer counts `getGeneralDebugInfo` reports, one decimal string per buffer size. */
    method GeneralDebugInfoCounts() returns (info: map<string, string>)
      ensures info == BufferCounts(|mainThreadBlocks|, |cpuUsageHistory|, |uiInteractions|)
      ensures info[TOTAL_BLOCKS_KEY] == NatToString(|mainThreadBlocks|)
      ensures info[CPU_SNAPSHOTS_KEY] == NatToString(|cpuUsageHistory|)
      ensures info[UI_INTERACTIONS_KEY] == NatToString(|uiInteractions|)
    {
      info := map[];
      info := info[TOTAL_BLOCKS_KEY := NatToString(|mainThreadBlocks|)];
      info := info[CPU_SNAPSHOTS_KEY := NatToString(|cpuUsageHistory|)];
      info := info[UI_INTERACTIONS_KEY := NatToString(|uiInteractions|)];
    }
  }
}

/**
 * `DependencyAnalyzerV3`: an append-only log of events tagged with the name of
 * the thread that logged them, and a dump of the log between two marker lines.
 */
module DependencyAnalyzer {

  const DUMP_START: string := "----- Dependency Analyzer Dump Start -----"
  const DUMP_END: string := "----- Dependency Analyzer Dump End -----"

  /** The entry `logEvent(event)` stores when called on the thread named `threadName`. */
  function Entry(threadName: string, event: string): (e: string)
    ensures |e| == |threadName| + |event| + 3
    ensures e[0] == '[' && e[1..|threadName| + 1] == threadName && e[|threadName| + 1..|threadName| + 3] == "] "
    ensures e[|threadName| + 3..] == event
  {
    "[" + threadName + "] " + event
  }

  /** The event text can be read back from its entry, whatever characters it holds. */
  lemma EntryPreservesEvent(threadName: string, e1: string, e2: string)
    requires Entry(threadName, e1) == Entry(threadName, e2)
    ensures e1 == e2
  {
    assert e1 == Entry(threadName, e1)[|threadName| + 3..];
  }

  /** The lines `dump` prints for a log holding `entries`. */
  function DumpLines(entries: seq<string>): (lines: seq<string>)
    ensures |lines| == |entries| + 2
    ensures lines[0] == DUMP_START && lines[|lines| - 1] == DUMP_END
    ensures lines[1..|lines| - 1] == entries
  {
    [DUMP_START] + entries + [DUMP_END]
  }

  /** One `logEvent` call: the thread it ran on and its argument. */
  datatype LoggedEvent = LoggedEvent(threadName: string, event: string)

  /** The log after the calls `events`, made in order, starting from `entries`. */
  function LogAll(entries: seq<string>, events: seq<LoggedEvent>): seq<string>
    decreases |events|
  {
    if events == [] then entries
    else LogAll(entries + [Entry(events[0].threadName, events[0].event)], events[1..])
  }

  /**
   * Logging only ever appends: the earlier entries stay in place, and the
   * log grows by exactly one entry per call, in call order.
   */
  lemma {:induction false} LogAllAppends(entries: seq<string>, events: seq<LoggedEvent>)
    ensures |LogAll(entries, events)| == |entries| + |events|
    ensures LogAll(entries, events)[..|entries|] == entries
    ensures forall i :: 0 <= i < |events| ==>
              LogAll(entries, events)[|entries| + i] == Entry(events[i].threadName, events[i].event)
    decreases |events|
  {
    if events != [] {
      var next := entries + [Entry(events[0].threadName, events[0].event)];
      LogAllAppends(next, events[1..]);
      var r := LogAll(entries, events);
      assert r == LogAll(next, events[1..]);
      assert r[..|entries|] == r[..|next|][..|entries|];
      forall i | 0 <= i < |events|
        ensures r[|entries| + i] == Entry(events[i].threadName, events[i].event)
      {
        if i > 0 {
          assert r[|next| + (i - 1)] == Entry(events[1..][i - 1].threadName, events[1..][i - 1].event);
        } else {
          assert r[|entries|] == r[..|next|][|entries|];
        }
      }
    }
  }

  /** A dump taken after more events shows every event of an earlier dump, in the same order, before the new ones. */
  lemma LaterDumpExtendsEarlier(entries: seq<string>, events: seq<LoggedEvent>)
    ensures |DumpLines(LogAll(entries, events))| == |DumpLines(entries)| + |events|
    ensures [DUMP_START] + entries <= DumpLines(LogAll(entries, events))
  {
    LogAllAppends(entries, events);
    var later := LogAll(entries, events);
    assert DumpLines(later)[..|entries| + 1] == [DUMP_START] + later[..|entries|];
  }

  /** The Kotlin `object DependencyAnalyzerV3` and its `dependencies` list. */
  class DependencyAnalyzerV3 {
    var dependencies: seq<string>

    constructor ()
      ensures dependencies == []
    {
      dependencies := [];
    }

    /** `logEvent`, with the current thread's name passed in. */
    method LogEvent(threadName: string, event: string)
      modifies this
      ensures dependencies == old(dependencies) + [Entry(threadName, event)]
    {
      dependencies := dependencies + ["[" + threadName + "] " + event];
    }

    /** `dump`: the printed lines are returned; the log is left as it is. */
    method Dump() returns (lines: seq<string>)
      ensures lines == DumpLines(dependencies)
    {
      lines := [DUMP_START];
      for i := 0 to |dependencies|
        invariant lines == [DUMP_START] + dependencies[..i]
      {
        lines := lines + [dependencies[i]];
      }
      lines := lines + [DUMP_END];
    }
  }
}

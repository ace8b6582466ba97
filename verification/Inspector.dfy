/** The message log of internal/agent/inspector.go: a ring buffer that behaves like a list. */
module Inspector {

  import opened Sequences

  datatype LogEntry = LogEntry(timestamp: int, direction: string, channel: string, nick: string, action: string, raw: string)

  /** The slots oldest first: once the buffer has wrapped, the oldest one is the next to be overwritten. */
  function Unrolled<T>(buf: seq<T>, pos: nat, full: bool): seq<T>
    requires pos <= |buf|
  {
    if full then buf[pos..] + buf[..pos] else buf[..pos]
  }

  /** The buffer holds the end of the history: all of it until it first wraps, then as much as it has slots. */
  ghost predicate Holds<T>(buf: seq<T>, pos: nat, full: bool, history: seq<T>) {
    && pos < |buf|
    && (if full then |history| >= |buf| else |history| == pos)
    && Unrolled(buf, pos, full) == LastOf(history, |buf|)
  }

  lemma WriteKeepsHolding<T>(buf: seq<T>, pos: nat, full: bool, history: seq<T>, entry: T)
    requires Holds(buf, pos, full, history)
    ensures pos + 1 < |buf| ==> Holds(buf[pos := entry], pos + 1, full, history + [entry])
    ensures pos + 1 == |buf| ==> Holds(buf[pos := entry], 0, true, history + [entry])
  {
    var after := buf[pos := entry];
    if full {
      LastOfAppend(history, entry, |buf|);
      if pos + 1 < |buf| {
        assert Unrolled(after, pos + 1, full) == Unrolled(buf, pos, full)[1..] + [entry];
      } else {
        assert Unrolled(after, 0, true) == Unrolled(buf, pos, full)[1..] + [entry];
      }
    } else if pos + 1 < |buf| {
      assert Unrolled(after, pos + 1, full) == history + [entry];
    } else {
      assert Unrolled(after, 0, true) == history + [entry];
    }
  }

  lemma LastOfAppend<T>(history: seq<T>, entry: T, n: nat)
    requires 0 < n <= |history|
    ensures LastOf(history + [entry], n) == LastOf(history, n)[1..] + [entry]
  {
  }

  /** Reading n slots round the buffer from n before the write position gives the last n of the history. */
  lemma ReadBack<T>(buf: seq<T>, pos: nat, full: bool, history: seq<T>, n: nat, start: nat, result: seq<T>)
    requires Holds(buf, pos, full, history)
    requires |result| == n <= (if full then |buf| else pos)
    requires start == if pos >= n then pos - n else pos - n + |buf|
    requires forall i :: 0 <= i < n ==> result[i] == buf[Slot(start + i, |buf|)]
    ensures result == LastOf(history, n)
  {
    var kept := Unrolled(buf, pos, full);
    assert result == kept[|kept| - n..];
  }

  function Slot(x: nat, size: nat): (slot: nat)
    requires x < 2 * size
    ensures slot < size
  {
    if x < size then x else x - size
  }

  /** Modulo the size, for an index less than two sizes. */
  lemma Wrap(x: nat, size: nat)
    requires x < 2 * size
    ensures x % size == Slot(x, size)
  {
  }

  class MessageLog {
    const maxLog: nat
    const msgLog: array<LogEntry>
    var logPos: nat
    var logFull: bool
    /** Everything ever recorded. */
    ghost var history: seq<LogEntry>

    ghost predicate Valid()
      reads this, msgLog
    {
      msgLog.Length == maxLog && Holds(msgLog[..], logPos, logFull, history)
    }

    constructor (maxLogEntries: int)
      ensures Valid() && history == [] && fresh(msgLog)
      ensures maxLog == if maxLogEntries <= 0 then 1000 else maxLogEntries
    {
      var n := if maxLogEntries <= 0 then 1000 else maxLogEntries;
      maxLog := n;
      msgLog := new LogEntry[n](_ => LogEntry(0, "", "", "", "", ""));
      logPos, logFull, history := 0, false, [];
    }

    method RecordMessage(entry: LogEntry)
      requires Valid()
      modifies this, msgLog
      ensures Valid() && history == old(history) + [entry]
    {
      WriteKeepsHolding(msgLog[..], logPos, logFull, history, entry);
      hide Holds;
      ghost var after := msgLog[..][logPos := entry];
      msgLog[logPos] := entry;
      assert msgLog[..] == after;
      logPos := logPos + 1;
      if logPos >= maxLog {
        logPos := 0;
        logFull := true;
      }
      history := history + [entry];
    }

    /** The most recent n entries, oldest first; all retained ones if n is not positive or too large. */
    method RecentMessages(n: int) returns (result: seq<LogEntry>)
      requires Valid()
      ensures result == LastOf(history, if n <= 0 || n > maxLog then maxLog else n)
    {
      hide Unrolled, Slot;
      assert logFull ==> |history| >= maxLog;
      assert !logFull ==> |history| == logPos;
      hide Holds;
      var total := logPos;
      if logFull {
        total := maxLog;
      }
      var m := n;
      if m <= 0 || m > total {
        m := total;
      }
      if m == 0 {
        return [];
      }
      if logFull {
        BackBy(logPos, m, maxLog);
        var start := (logPos - m + maxLog) % maxLog;
        result := ReadFrom(start, m);
        ReadBack(msgLog[..], logPos, logFull, history, m, start, result);
      } else {
        result := ReadFrom(logPos - m, m);
        ReadBack(msgLog[..], logPos, logFull, history, m, logPos - m, result);
      }
    }

    /** The reading loops: n slots from start on, going round at the end of the buffer. */
    method ReadFrom(start: nat, n: nat) returns (result: seq<LogEntry>)
      requires start < msgLog.Length == maxLog && n <= maxLog
      ensures |result| == n && forall i :: 0 <= i < n ==> result[i] == msgLog[..][Slot(start + i, maxLog)]
    {
      hide Slot;
      result := [];
      for i := 0 to n
        invariant |result| == i && forall k :: 0 <= k < i ==> result[k] == msgLog[..][Slot(start + k, maxLog)]
      {
        Wrap(start + i, maxLog);
        var idx := (start + i) % maxLog;
        result := result + [msgLog[idx]];
      }
    }
  }

  /** Where a read of n slots starts. */
  lemma BackBy(pos: nat, n: nat, size: nat)
    requires pos < size && 0 < n <= size
    ensures (pos - n + size) % size == if pos >= n then pos - n else pos - n + size
  {
    Wrap(pos - n + size, size);
  }
}

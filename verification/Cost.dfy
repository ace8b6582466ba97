/** Cost entries and their aggregation, of internal/cost/store.go. Amounts are real numbers, token counts unbounded. */
module Cost {

  import opened Protocol
  import opened Sequences
  import State

  datatype CostEntry = CostEntry(
    agent: string,
    task: string,
    model: string,
    provider: string,
    channel: string,
    inputTokens: int,
    outputTokens: int,
    totalTokens: int,
    costUSD: real,
    timestamp: int)

  datatype CostSummary = CostSummary(
    totalCostUSD: real,
    totalTokens: int,
    inputTokens: int,
    outputTokens: int,
    entryCount: int)
  {
    function Plus(other: CostSummary): CostSummary {
      CostSummary(
        totalCostUSD + other.totalCostUSD, totalTokens + other.totalTokens,
        inputTokens + other.inputTokens, outputTokens + other.outputTokens, entryCount + other.entryCount)
    }
  }

  const ZERO := CostSummary(0.0, 0, 0, 0, 0)

  function Single(e: CostEntry): CostSummary {
    CostSummary(e.costUSD, e.totalTokens, e.inputTokens, e.outputTokens, 1)
  }

  function Sum(entries: seq<CostEntry>): CostSummary {
    if entries == [] then ZERO else Sum(entries[..|entries| - 1]).Plus(Single(entries[|entries| - 1]))
  }

  lemma SumAppend(entries: seq<CostEntry>, e: CostEntry)
    ensures Sum(entries + [e]) == Sum(entries).Plus(Single(e))
  {
    assert (entries + [e])[..|entries|] == entries;
  }

  /** The numbers an entry contributes, added up one after the other. */
  function Total(entries: seq<CostEntry>, number: CostEntry -> int): int {
    if entries == [] then 0 else Total(entries[..|entries| - 1], number) + number(entries[|entries| - 1])
  }

  function TotalAmount(entries: seq<CostEntry>): real {
    if entries == [] then 0.0 else TotalAmount(entries[..|entries| - 1]) + entries[|entries| - 1].costUSD
  }

  function InputTokens(e: CostEntry): int { e.inputTokens }

  function OutputTokens(e: CostEntry): int { e.outputTokens }

  function TotalTokens(e: CostEntry): int { e.totalTokens }

  /** Each number of a summary is the sum of that number over the entries, and the count is their count. */
  lemma {:induction false} SumIsTotals(entries: seq<CostEntry>)
    ensures Sum(entries) == CostSummary(
      TotalAmount(entries), Total(entries, TotalTokens), Total(entries, InputTokens), Total(entries, OutputTokens), |entries|)
  {
    if entries != [] {
      SumIsTotals(entries[..|entries| - 1]);
    }
  }

  /** The entries whose key is among the given ones, in order. */
  function Selected(entries: seq<CostEntry>, keyFn: CostEntry -> string, keys: set<string>): seq<CostEntry> {
    if entries == [] then []
    else
      var front, last := entries[..|entries| - 1], entries[|entries| - 1];
      Selected(front, keyFn, keys) + if keyFn(last) in keys then [last] else []
  }

  /** The selection, element by element: exactly the entries with one of the keys, in order. */
  lemma {:induction false} SelectedIsSelection(entries: seq<CostEntry>, keyFn: CostEntry -> string, keys: set<string>)
    ensures IsSelection(entries, Selected(entries, keyFn, keys), WithKey(keyFn, keys))
  {
    hide IsSelection;
    if entries == [] {
      Sequences.NothingSelected(WithKey(keyFn, keys));
    } else {
      var front, last := entries[..|entries| - 1], entries[|entries| - 1];
      SelectedIsSelection(front, keyFn, keys);
      assert front + [last] == entries;
      SelectionGrows(front, Selected(front, keyFn, keys), WithKey(keyFn, keys), last);
    }
  }

  function WithKey(keyFn: CostEntry -> string, keys: set<string>): CostEntry -> Option<CostEntry> {
    e => if keyFn(e) in keys then Some(e) else None
  }

  lemma SelectedAppend(entries: seq<CostEntry>, e: CostEntry, keyFn: CostEntry -> string, keys: set<string>)
    ensures Selected(entries + [e], keyFn, keys) == Selected(entries, keyFn, keys) + if keyFn(e) in keys then [e] else []
  {
    assert (entries + [e])[..|entries|] == entries;
  }

  function KeysOf(entries: seq<CostEntry>, keyFn: CostEntry -> string): set<string> {
    set e | e in entries :: keyFn(e)
  }

  /** One group per key that occurs, holding the entries with that key in order. */
  ghost predicate AreGroups(entries: seq<CostEntry>, keyFn: CostEntry -> string, groups: map<string, seq<CostEntry>>) {
    groups.Keys == KeysOf(entries, keyFn) && forall key :: key in groups ==> groups[key] == Selected(entries, keyFn, {key})
  }

  lemma KeysAppend(entries: seq<CostEntry>, e: CostEntry, keyFn: CostEntry -> string)
    ensures KeysOf(entries + [e], keyFn) == KeysOf(entries, keyFn) + {keyFn(e)}
  {
    assert forall x :: x in entries + [e] <==> x in entries || x == e;
    assert e in entries + [e];
  }

  lemma {:induction false} NothingSelected(entries: seq<CostEntry>, keyFn: CostEntry -> string, keys: set<string>)
    requires keys !! KeysOf(entries, keyFn)
    ensures Selected(entries, keyFn, keys) == []
  {
    if entries != [] {
      var front, last := entries[..|entries| - 1], entries[|entries| - 1];
      KeysAppend(front, last, keyFn);
      assert front + [last] == entries;
      NothingSelected(front, keyFn, keys);
    }
  }

  lemma GroupsGrow(entries: seq<CostEntry>, e: CostEntry, keyFn: CostEntry -> string, groups: map<string, seq<CostEntry>>)
    requires AreGroups(entries, keyFn, groups)
    ensures var key := keyFn(e);
      AreGroups(entries + [e], keyFn, groups[key := (if key in groups then groups[key] else []) + [e]])
  {
    hide Selected, KeysOf;
    var key := keyFn(e);
    KeysAppend(entries, e, keyFn);
    forall k ensures Selected(entries + [e], keyFn, {k}) == Selected(entries, keyFn, {k}) + if key == k then [e] else [] {
      SelectedAppend(entries, e, keyFn, {k});
    }
    if key !in groups {
      NothingSelected(entries, keyFn, {key});
    }
  }

  method Summarize(entries: seq<CostEntry>) returns (s: CostSummary)
    ensures s == Sum(entries)
    ensures s.totalCostUSD == TotalAmount(entries) && s.totalTokens == Total(entries, TotalTokens)
    ensures s.inputTokens == Total(entries, InputTokens) && s.outputTokens == Total(entries, OutputTokens)
    ensures s.entryCount == |entries|
  {
    SumIsTotals(entries);
    hide Total, TotalAmount;
    s := CostSummary(0.0, 0, 0, 0, |entries|);
    for i := 0 to |entries|
      invariant s == Sum(entries[..i]).(entryCount := |entries|) && Sum(entries[..i]).entryCount == i
    {
      var e := entries[i];
      assert entries[..i] + [e] == entries[..i + 1];
      SumAppend(entries[..i], e);
      s := s.(
        totalCostUSD := s.totalCostUSD + e.costUSD, totalTokens := s.totalTokens + e.totalTokens,
        inputTokens := s.inputTokens + e.inputTokens, outputTokens := s.outputTokens + e.outputTokens);
    }
    assert entries[..|entries|] == entries;
  }

  /** One summary per key that occurs: that of the entries with the key. */
  ghost predicate Summarizes(entries: seq<CostEntry>, keyFn: CostEntry -> string, result: map<string, CostSummary>) {
    && result.Keys == KeysOf(entries, keyFn)
    && forall key :: key in result ==> result[key] == Sum(Selected(entries, keyFn, {key}))
  }

  method GroupBy(entries: seq<CostEntry>, keyFn: CostEntry -> string) returns (result: map<string, CostSummary>)
    ensures Summarizes(entries, keyFn, result)
  {
    hide Selected, Sum;
    var groups: map<string, seq<CostEntry>> := map[];
    for i := 0 to |entries|
      invariant AreGroups(entries[..i], keyFn, groups)
    {
      var e := entries[i];
      var key := keyFn(e);
      GroupsGrow(entries[..i], e, keyFn, groups);
      assert entries[..i] + [e] == entries[..i + 1];
      groups := groups[key := (if key in groups then groups[key] else []) + [e]];
    }
    assert entries[..|entries|] == entries;
    result := map[];
    var keys := groups.Keys;
    while keys != {}
      invariant keys <= groups.Keys && result.Keys == groups.Keys - keys
      invariant forall key :: key in result ==> result[key] == Sum(groups[key])
      decreases |keys|
    {
      var key :| key in keys;
      var s := Summarize(groups[key]);
      result := result[key := s];
      keys := keys - {key};
    }
  }

  class CostStore {
    var entries: seq<CostEntry>

    constructor ()
      ensures entries == []
    {
      entries := [];
    }

    /** parseFloat stands for the library's parser, of which only the value is used. */
    method RecordCost(msg: Message, parseFloat: string -> real, now: int)
      modifies this
      ensures msg.action != CostReport ==> entries == old(entries)
      ensures msg.action == CostReport ==>
        && |entries| == |old(entries)| + 1 && entries[..|old(entries)|] == old(entries)
        && var e := entries[|old(entries)|];
          && (e.agent, e.task, e.model) == (msg.nick, msg.Get("task"), msg.Get("model"))
          && (e.provider, e.channel, e.timestamp) == (msg.Get("provider"), msg.channel, Stamped(msg.timestamp, now))
          && e.inputTokens == State.ParseInt(msg.Get("input-tokens"))
          && e.outputTokens == State.ParseInt(msg.Get("output-tokens"))
          && e.totalTokens == State.ParseInt(msg.Get("total-tokens"))
          && e.costUSD == if msg.Get("cost-usd") == "" then 0.0 else parseFloat(msg.Get("cost-usd"))
    {
      if msg.action != CostReport {
        return;
      }
      var entry := CostEntry(
        msg.nick, msg.Get("task"), msg.Get("model"), msg.Get("provider"), msg.channel, 0, 0, 0, 0.0, Stamped(msg.timestamp, now));
      var v := msg.Get("input-tokens");
      if v != "" {
        entry := entry.(inputTokens := State.ParseInt(v));
      }
      v := msg.Get("output-tokens");
      if v != "" {
        entry := entry.(outputTokens := State.ParseInt(v));
      }
      v := msg.Get("total-tokens");
      if v != "" {
        entry := entry.(totalTokens := State.ParseInt(v));
      }
      v := msg.Get("cost-usd");
      if v != "" {
        entry := entry.(costUSD := parseFloat(v));
      }
      entries := entries + [entry];
    }

    method TotalSummary() returns (s: CostSummary)
      ensures s == Sum(entries)
    {
      s := Summarize(entries);
    }

    method ByAgent() returns (result: map<string, CostSummary>)
      ensures Summarizes(entries, AgentOf, result)
    {
      result := GroupBy(entries, AgentOf);
    }

    method ByTask() returns (result: map<string, CostSummary>)
      ensures Summarizes(entries, TaskOf, result)
    {
      result := GroupBy(entries, TaskOf);
    }

    method ByModel() returns (result: map<string, CostSummary>)
      ensures Summarizes(entries, ModelOf, result)
    {
      result := GroupBy(entries, ModelOf);
    }

    /** The most recent n entries of an agent; all of them if n is not positive. */
    method EntriesForAgent(nick: string, n: int) returns (result: seq<CostEntry>)
      ensures var filtered := Selected(entries, AgentOf, {nick});
        result == LastOf(filtered, if n <= 0 then |filtered| else n)
    {
      hide Selected;
      SumOfNothing(AgentOf, {nick});
      var filtered: seq<CostEntry> := [];
      for i := 0 to |entries|
        invariant filtered == Selected(entries[..i], AgentOf, {nick})
      {
        SelectedUpTo(entries, i, nick);
        if entries[i].agent == nick {
          filtered := filtered + [entries[i]];
        }
      }
      assert entries[..|entries|] == entries;
      var m := if n <= 0 || n > |filtered| then |filtered| else n;
      if m == 0 {
        return [];
      }
      return filtered[|filtered| - m..];
    }
  }

  lemma SelectedUpTo(entries: seq<CostEntry>, i: nat, nick: string)
    requires i < |entries|
    ensures Selected(entries[..i + 1], AgentOf, {nick})
      == Selected(entries[..i], AgentOf, {nick}) + if entries[i].agent == nick then [entries[i]] else []
  {
    assert entries[..i] + [entries[i]] == entries[..i + 1];
    SelectedAppend(entries[..i], entries[i], AgentOf, {nick});
  }

  function AgentOf(e: CostEntry): string { e.agent }

  function TaskOf(e: CostEntry): string { e.task }

  function ModelOf(e: CostEntry): string { e.model }

  // ---------- conservation ----------

  lemma PlusLaws(a: CostSummary, b: CostSummary, c: CostSummary)
    ensures a.Plus(b).Plus(c) == a.Plus(b.Plus(c)) == a.Plus(c).Plus(b)
    ensures ZERO.Plus(a) == a == a.Plus(ZERO)
  {
  }

  lemma SumOfNothing(keyFn: CostEntry -> string, keys: set<string>)
    ensures Selected([], keyFn, keys) == [] && Sum([]) == ZERO
  {
  }

  lemma SelectedSum(entries: seq<CostEntry>, e: CostEntry, keyFn: CostEntry -> string, keys: set<string>)
    ensures Sum(Selected(entries + [e], keyFn, keys))
      == if keyFn(e) in keys then Sum(Selected(entries, keyFn, keys)).Plus(Single(e)) else Sum(Selected(entries, keyFn, keys))
  {
    hide *;
    SelectedAppend(entries, e, keyFn, keys);
    SumAppend(Selected(entries, keyFn, keys), e);
    assert Selected(entries, keyFn, keys) + [] == Selected(entries, keyFn, keys);
  }

  lemma {:induction false} SelectionSplits(entries: seq<CostEntry>, keyFn: CostEntry -> string, keys: set<string>, key: string)
    requires key !in keys
    ensures Sum(Selected(entries, keyFn, keys + {key}))
      == Sum(Selected(entries, keyFn, keys)).Plus(Sum(Selected(entries, keyFn, {key})))
  {
    hide *;
    if entries == [] {
      SumOfNothing(keyFn, keys + {key});
      SumOfNothing(keyFn, keys);
      SumOfNothing(keyFn, {key});
      PlusLaws(ZERO, ZERO, ZERO);
    } else {
      var front, last := entries[..|entries| - 1], entries[|entries| - 1];
      assert front + [last] == entries;
      SelectionSplits(front, keyFn, keys, key);
      SelectedSum(front, last, keyFn, keys + {key});
      SelectedSum(front, last, keyFn, keys);
      SelectedSum(front, last, keyFn, {key});
      PlusLaws(Sum(Selected(front, keyFn, keys)), Sum(Selected(front, keyFn, {key})), Single(last));
    }
  }

  /** The summaries under the listed keys, added up. */
  function AddedUp(result: map<string, CostSummary>, keys: seq<string>): CostSummary
    requires forall key :: key in keys ==> key in result
  {
    if keys == [] then ZERO else AddedUp(result, keys[..|keys| - 1]).Plus(result[keys[|keys| - 1]])
  }

  lemma {:induction false} ListedGroupsAddUp(
      entries: seq<CostEntry>, keyFn: CostEntry -> string, result: map<string, CostSummary>, keys: seq<string>)
    requires Summarizes(entries, keyFn, result) && NoneTwice(keys) && forall key :: key in keys ==> key in result
    ensures AddedUp(result, keys) == Sum(Selected(entries, keyFn, (set key | key in keys)))
  {
    hide Selected, Sum, KeysOf;
    if keys == [] {
      NothingSelected(entries, keyFn, {});
      SumOfNothing(keyFn, {});
      assert (set key | key in keys) == {};
    } else {
      hide CostSummary.Plus;
      var front, last := keys[..|keys| - 1], keys[|keys| - 1];
      ListedGroupsAddUp(entries, keyFn, result, front);
      SelectionSplits(entries, keyFn, (set key | key in front), last);
      assert (set key | key in keys) == (set key | key in front) + {last};
    }
  }

  lemma {:induction false} EverythingSelected(entries: seq<CostEntry>, keyFn: CostEntry -> string, keys: set<string>)
    requires KeysOf(entries, keyFn) <= keys
    ensures Selected(entries, keyFn, keys) == entries
  {
    if entries != [] {
      var front, last := entries[..|entries| - 1], entries[|entries| - 1];
      assert front + [last] == entries;
      KeysAppend(front, last, keyFn);
      EverythingSelected(front, keyFn, keys);
    }
  }

  /** Whatever the entries are grouped by, and in whatever order the groups are listed, they add up to the total summary. */
  lemma GroupsAddUpToTotal(
      entries: seq<CostEntry>, keyFn: CostEntry -> string, result: map<string, CostSummary>, keys: seq<string>)
    requires Summarizes(entries, keyFn, result)
    requires NoneTwice(keys) && (set key | key in keys) == result.Keys
    ensures AddedUp(result, keys) == Sum(entries)
  {
    ListedGroupsAddUp(entries, keyFn, result, keys);
    EverythingSelected(entries, keyFn, (set key | key in keys));
  }

  /** An agent's group has as many entries, and the same sums, as the list of its entries; other agents have neither. */
  lemma AgentGroupIsAgentEntries(entries: seq<CostEntry>, result: map<string, CostSummary>, nick: string)
    requires Summarizes(entries, AgentOf, result)
    ensures Sum(Selected(entries, AgentOf, {nick})) == if nick in result then result[nick] else ZERO
    ensures nick in result <==> Selected(entries, AgentOf, {nick}) != []
  {
    if nick !in result {
      NothingSelected(entries, AgentOf, {nick});
    } else if Selected(entries, AgentOf, {nick}) == [] {
      var e :| e in entries && AgentOf(e) == nick;
      SelectedHasAll(entries, AgentOf, {nick}, e);
    }
  }

  lemma {:induction false} SelectedHasAll(entries: seq<CostEntry>, keyFn: CostEntry -> string, keys: set<string>, e: CostEntry)
    ensures e in Selected(entries, keyFn, keys) <==> e in entries && keyFn(e) in keys
  {
    if entries != [] {
      var front, last := entries[..|entries| - 1], entries[|entries| - 1];
      assert entries == front + [last];
      SelectedHasAll(front, keyFn, keys, e);
    }
  }
}

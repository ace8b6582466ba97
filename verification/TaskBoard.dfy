/** Offers, claims and claim arbitration of internal/agent/taskboard.go. */
module TaskBoard {
  import opened Sequences

  datatype Offer = Offer(
    task: string,
    channel: string,
    offeredBy: string,
    priority: string,
    scope: string,
    offeredAt: int,
    claimedBy: string)

  datatype Claim = Claim(nick: string, load: int, claimedAt: int)

  // ---------- arbitration ----------

  /** The winner as the loop finds it: a later claim only wins with a strictly smaller load. */
  function Winner(claims: seq<Claim>): Claim
    requires claims != []
  {
    if |claims| == 1 then claims[0]
    else
      var best, last := Winner(claims[..|claims| - 1]), claims[|claims| - 1];
      if last.load < best.load then last else best
  }

  lemma WinnerGrows(claims: seq<Claim>)
    ensures claims != [] ==> Winner(claims[..1]) == claims[0] && claims[..|claims|] == claims
    ensures forall i :: 0 < i < |claims| ==>
      Winner(claims[..i + 1]) == if claims[i].load < Winner(claims[..i]).load then claims[i] else Winner(claims[..i])
  {
    forall i | 0 < i < |claims|
      ensures Winner(claims[..i + 1]) == if claims[i].load < Winner(claims[..i]).load then claims[i] else Winner(claims[..i])
    {
      assert claims[..i + 1][..i] == claims[..i];
    }
  }

  /** Claim number w has the least load, and no earlier claim has as little. */
  predicate EarliestLeast(claims: seq<Claim>, w: nat) {
    && w < |claims|
    && (forall j :: 0 <= j < |claims| ==> claims[w].load <= claims[j].load)
    && (forall j :: 0 <= j < w ==> claims[w].load < claims[j].load)
  }

  lemma {:induction false} WinnerIsEarliestLeast(claims: seq<Claim>) returns (w: nat)
    requires claims != []
    ensures EarliestLeast(claims, w) && claims[w] == Winner(claims)
  {
    if |claims| == 1 {
      w := 0;
    } else {
      w := WinnerIsEarliestLeast(claims[..|claims| - 1]);
      if claims[|claims| - 1].load < claims[w].load {
        w := |claims| - 1;
      }
    }
  }

  lemma OnlyOneEarliestLeast(claims: seq<Claim>, w: nat, v: nat)
    requires EarliestLeast(claims, w) && EarliestLeast(claims, v)
    ensures w == v
  {
    assert claims[w].load == claims[v].load;
  }

  // ---------- the board ----------

  function Flatten(batches: seq<seq<Claim>>): seq<Claim> {
    if batches == [] then [] else Flatten(batches[..|batches| - 1]) + batches[|batches| - 1]
  }

  /** An existing offer gets a new holder; without an offer nothing happens. */
  function HeldBy(offers: map<string, Offer>, task: string, nick: string): map<string, Offer> {
    if task in offers then offers[task := offers[task].(claimedBy := nick)] else offers
  }

  /** The decided batches, none empty, followed by the pending claims are all the claims in order of arrival. */
  ghost predicate Accounted(recorded: seq<Claim>, batches: seq<seq<Claim>>, pending: seq<Claim>) {
    Flatten(batches) + pending == recorded && forall i :: 0 <= i < |batches| ==> batches[i] != []
  }

  ghost predicate AllAccounted(
      recorded: map<string, seq<Claim>>, batches: map<string, seq<seq<Claim>>>, pending: map<string, seq<Claim>>) {
    forall task :: Accounted(ListAt(recorded, task), ListAt(batches, task), ListAt(pending, task))
  }

  lemma ClaimArrivesFor(recorded: seq<Claim>, batches: seq<seq<Claim>>, pending: seq<Claim>, c: Claim)
    requires Accounted(recorded, batches, pending)
    ensures Accounted(recorded + [c], batches, pending + [c])
  {
    hide Flatten;
    assert Flatten(batches) + (pending + [c]) == Flatten(batches) + pending + [c];
  }

  lemma ClaimArrives(
      recorded: map<string, seq<Claim>>, batches: map<string, seq<seq<Claim>>>, pending: map<string, seq<Claim>>,
      task: string, c: Claim)
    requires AllAccounted(recorded, batches, pending)
    ensures AllAccounted(recorded[task := ListAt(recorded, task) + [c]], batches, pending[task := ListAt(pending, task) + [c]])
  {
    hide Accounted;
    var r, p := recorded[task := ListAt(recorded, task) + [c]], pending[task := ListAt(pending, task) + [c]];
    forall t ensures Accounted(ListAt(r, t), ListAt(batches, t), ListAt(p, t)) {
      assert Accounted(ListAt(recorded, t), ListAt(batches, t), ListAt(pending, t));
      if t == task {
        ClaimArrivesFor(ListAt(recorded, t), ListAt(batches, t), ListAt(pending, t), c);
      }
    }
  }

  lemma BatchClosesFor(recorded: seq<Claim>, batches: seq<seq<Claim>>, pending: seq<Claim>)
    requires Accounted(recorded, batches, pending) && pending != []
    ensures Accounted(recorded, batches + [pending], [])
  {
    assert (batches + [pending])[..|batches|] == batches;
  }

  lemma BatchCloses(
      recorded: map<string, seq<Claim>>, batches: map<string, seq<seq<Claim>>>, pending: map<string, seq<Claim>>, task: string)
    requires AllAccounted(recorded, batches, pending)
    requires ListAt(pending, task) != []
    ensures AllAccounted(recorded, batches[task := ListAt(batches, task) + [ListAt(pending, task)]], pending - {task})
  {
    hide Accounted;
    var b, p := batches[task := ListAt(batches, task) + [ListAt(pending, task)]], pending - {task};
    forall t ensures Accounted(ListAt(recorded, t), ListAt(b, t), ListAt(p, t)) {
      assert Accounted(ListAt(recorded, t), ListAt(batches, t), ListAt(pending, t));
      if t == task {
        BatchClosesFor(ListAt(recorded, t), ListAt(batches, t), ListAt(pending, t));
      }
    }
  }

  lemma NothingToAccount()
    ensures AllAccounted(map[], map[], map[])
  {
  }

  /** A timer is armed exactly for the tasks with pending claims; without jitter there are neither. */
  predicate Armed(claimJitter: int, pending: map<string, seq<Claim>>, timers: set<string>) {
    && (forall task :: task in pending ==> pending[task] != [])
    && (if claimJitter == 0 then pending == map[] && timers == {} else timers == pending.Keys)
  }

  lemma QueuedIsArmed(claimJitter: int, pending: map<string, seq<Claim>>, timers: set<string>, task: string, c: Claim)
    requires claimJitter != 0 && Armed(claimJitter, pending, timers)
    ensures Armed(claimJitter, pending[task := ListAt(pending, task) + [c]], timers + {task})
  {
  }

  lemma DecidedIsDisarmed(claimJitter: int, pending: map<string, seq<Claim>>, timers: set<string>, task: string)
    requires Armed(claimJitter, pending, timers)
    ensures Armed(claimJitter, pending - {task}, timers - {task})
    ensures ListAt(pending, task) != [] <==> task in pending
  {
  }

  lemma InstantLeavesNothing(pending: map<string, seq<Claim>>, timers: set<string>, task: string, c: Claim)
    requires Armed(0, pending, timers)
    ensures var queued := pending[task := ListAt(pending, task) + [c]];
      ListAt(queued, task) == queued[task] == [c] && queued - {task} == pending
  {
  }

  class Board {
    const claimJitter: int
    var offers: map<string, Offer>
    var pendingClaims: map<string, seq<Claim>>
    /** The tasks whose timer is armed. */
    var timers: set<string>
    /** All claims ever recorded, and the batches that were decided, by task. */
    ghost var recorded: map<string, seq<Claim>>
    ghost var batches: map<string, seq<seq<Claim>>>

    /**
     * A timer is armed exactly for the tasks with pending claims (none at all without jitter), and the decided batches
     * followed by the pending claims are all the claims in order of arrival.
     */
    ghost predicate Valid()
      reads this
    {
      Armed(claimJitter, pendingClaims, timers) && AllAccounted(recorded, batches, pendingClaims)
    }

    constructor (claimJitter: int)
      ensures Valid() && this.claimJitter == claimJitter && offers == map[] && recorded == map[] && batches == map[]
    {
      this.claimJitter := claimJitter;
      offers, pendingClaims, timers, recorded, batches := map[], map[], {}, map[], map[];
      NothingToAccount();
    }

    method RecordOffer(task: string, channel: string, offeredBy: string, priority: string, scope: string, now: int)
      requires Valid()
      modifies this`offers
      ensures Valid()
      ensures offers == old(offers)[task := Offer(task, channel, offeredBy, priority, scope, now, "")]
    {
      offers := offers[task := Offer(task, channel, offeredBy, priority, scope, now, "")];
    }

    method RecordClaim(task: string, nick: string, load: int, now: int) returns (winner: string)
      requires Valid()
      modifies this
      ensures Valid()
      ensures recorded == old(recorded)[task := ListAt(old(recorded), task) + [Claim(nick, load, now)]]
      ensures claimJitter == 0 ==>
        && winner == nick && offers == HeldBy(old(offers), task, nick)
        && batches == old(batches)[task := ListAt(old(batches), task) + [[Claim(nick, load, now)]]]
      ensures claimJitter != 0 ==>
        && winner == "" && offers == old(offers) && batches == old(batches)
        && timers == old(timers) + {task}
        && pendingClaims == old(pendingClaims)[task := ListAt(old(pendingClaims), task) + [Claim(nick, load, now)]]
    {
      hide *;
      ValidMeans();
      var entry := Claim(nick, load, now);
      ClaimArrives(recorded, batches, pendingClaims, task, entry);
      if claimJitter == 0 {
        InstantLeavesNothing(pendingClaims, timers, task, entry);
      } else {
        QueuedIsArmed(claimJitter, pendingClaims, timers, task, entry);
      }
      pendingClaims := pendingClaims[task := ListAt(pendingClaims, task) + [entry]];
      recorded := recorded[task := ListAt(recorded, task) + [entry]];
      if claimJitter == 0 {
        winner := pendingClaims[task][0].nick;
        offers := HeldBy(offers, task, winner);
        BatchCloses(recorded, batches, pendingClaims, task);
        batches := batches[task := ListAt(batches, task) + [[entry]]];
        pendingClaims := pendingClaims - {task};
        ValidMeans();
        return winner;
      }
      if task !in timers {
        timers := timers + {task};
      }
      assert timers == old(timers) + {task};
      ValidMeans();
      return "";
    }

    lemma ValidMeans()
      ensures Valid() <==> Armed(claimJitter, pendingClaims, timers) && AllAccounted(recorded, batches, pendingClaims)
    {
    }

    /** What the timer of a task runs. */
    method ResolveArbitration(task: string)
      requires Valid()
      modifies this
      ensures Valid()
      ensures recorded == old(recorded)
      ensures task !in old(pendingClaims) ==>
        offers == old(offers) && pendingClaims == old(pendingClaims) && timers == old(timers) && batches == old(batches)
      ensures task in old(pendingClaims) ==>
        var claims := old(pendingClaims)[task];
        && claims != [] && offers == HeldBy(old(offers), task, Winner(claims).nick)
        && pendingClaims == old(pendingClaims) - {task} && timers == old(timers) - {task}
        && batches == old(batches)[task := ListAt(old(batches), task) + [claims]]
    {
      hide AllAccounted, HeldBy, Armed, Winner;
      WinnerGrows(ListAt(pendingClaims, task));
      DecidedIsDisarmed(claimJitter, pendingClaims, timers, task);
      var claims := ListAt(pendingClaims, task);
      if |claims| == 0 {
        return;
      }
      var winner := claims[0];
      for i := 1 to |claims|
        invariant winner == Winner(claims[..i])
      {
        if claims[i].load < winner.load {
          winner := claims[i];
        }
      }
      offers := HeldBy(offers, task, winner.nick);
      BatchCloses(recorded, batches, pendingClaims, task);
      batches := batches[task := ListAt(batches, task) + [claims]];
      pendingClaims := pendingClaims - {task};
      timers := timers - {task};
    }

    method RecordAssign(task: string, to: string, assignedBy: string, channel: string, now: int)
      requires Valid()
      modifies this`offers
      ensures Valid()
      ensures offers == if task in old(offers) then HeldBy(old(offers), task, to)
        else old(offers)[task := Offer(task, channel, assignedBy, "", "", now, to)]
    {
      if task in offers {
        offers := HeldBy(offers, task, to);
      } else {
        offers := offers[task := Offer(task, channel, assignedBy, "", "", now, to)];
      }
    }

    /** RecordDecline and RecordYield both clear the holder. */
    method RecordRelease(task: string)
      requires Valid()
      modifies this`offers
      ensures Valid()
      ensures offers == HeldBy(old(offers), task, "")
    {
      offers := HeldBy(offers, task, "");
    }
  }

  // ---------- claims without jitter ----------

  datatype InstantClaim = InstantClaim(task: string, nick: string)

  /** The offers after claims that are decided at once, each as RecordClaim leaves them. */
  function AfterClaims(offers: map<string, Offer>, claims: seq<InstantClaim>): map<string, Offer> {
    if claims == [] then offers
    else
      var last := claims[|claims| - 1];
      HeldBy(AfterClaims(offers, claims[..|claims| - 1]), last.task, last.nick)
  }

  /** The nicks that claimed a task, in order. */
  function Claimants(claims: seq<InstantClaim>, task: string): seq<string> {
    if claims == [] then []
    else
      var last := claims[|claims| - 1];
      Claimants(claims[..|claims| - 1], task) + if last.task == task then [last.nick] else []
  }

  /** Whatever claims come in between for other tasks, an offer is held by its last claimant. */
  lemma {:induction false} LastClaimHolds(offers: map<string, Offer>, claims: seq<InstantClaim>, task: string)
    ensures AfterClaims(offers, claims).Keys == offers.Keys
    ensures var nicks := Claimants(claims, task);
      task in offers ==>
        (AfterClaims(offers, claims)[task] == if nicks == [] then offers[task] else offers[task].(claimedBy := nicks[|nicks| - 1]))
  {
    if claims != [] {
      LastClaimHolds(offers, claims[..|claims| - 1], task);
    }
  }

  /** Without jitter the first claim wins, as the comment has it, if and only if the last claim has the same nick. */
  lemma FirstClaimWinsIffLast(offers: map<string, Offer>, claims: seq<InstantClaim>, task: string)
    requires task in offers && Claimants(claims, task) != []
    ensures var nicks, after := Claimants(claims, task), AfterClaims(offers, claims);
      && task in after && after[task].claimedBy == nicks[|nicks| - 1]
      && (after[task].claimedBy == nicks[0] <==> nicks[|nicks| - 1] == nicks[0])
  {
    LastClaimHolds(offers, claims, task);
  }

  /** So of two agents the second one gets the task. */
  lemma LastInstantClaimHolds(offers: map<string, Offer>, task: string, first: string, second: string)
    requires task in offers && first != second
    ensures var after := AfterClaims(offers, [InstantClaim(task, first), InstantClaim(task, second)]);
      task in after && after[task].claimedBy == second != first
  {
    var one, two := InstantClaim(task, first), InstantClaim(task, second);
    assert [one, two][..1] == [one] && [one][..0] == [];
    assert Claimants([one], task) == [first] && Claimants([one, two], task) == [first, second];
    FirstClaimWinsIffLast(offers, [one, two], task);
  }
}

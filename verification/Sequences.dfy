/** What several stores mean by their lists: the most recent entries, the list under a key, a selection in order. */
module Sequences {
  import opened Protocol

  /** The last n elements, or all of them if there are fewer. */
  function LastOf<T>(s: seq<T>, n: nat): seq<T> {
    if n <= |s| then s[|s| - n..] else s
  }

  /** The list kept under a key, empty if there is none yet. */
  function ListAt<T>(lists: map<string, seq<T>>, key: string): seq<T> {
    if key in lists then lists[key] else []
  }

  predicate NoneTwice(keys: seq<string>) {
    forall i, j :: 0 <= i < j < |keys| ==> keys[i] != keys[j]
  }

  /** Position at[i] of the list is the i-th one from which something is taken; what is taken there is picked[i]. */
  ghost predicate Selects<A, B>(all: seq<A>, at: seq<nat>, picked: seq<B>, take: A -> Option<B>) {
    && |at| == |picked|
    && (forall i :: 0 <= i < |at| ==> at[i] < |all| && take(all[at[i]]) == Some(picked[i]))
    && (forall i, j :: 0 <= i < j < |at| ==> at[i] < at[j])
    && (forall k: nat :: k < |all| && take(all[k]).Some? ==> k in at)
  }

  /** What is picked is everything that can be taken from the list, in the order of the list. */
  ghost predicate IsSelection<A, B>(all: seq<A>, picked: seq<B>, take: A -> Option<B>) {
    exists at :: Selects(all, at, picked, take)
  }

  lemma NothingSelected<A, B>(take: A -> Option<B>)
    ensures IsSelection([], [], take)
  {
    assert Selects([], [], [], take);
  }

  lemma SelectsOneMore<A, B>(all: seq<A>, at: seq<nat>, picked: seq<B>, take: A -> Option<B>, x: A, n: nat)
    requires Selects(all, at, picked, take) && n == |all| && take(x).Some?
    ensures Selects(all + [x], at + [n], picked + [take(x).value], take)
  {
    var more, next := all + [x], at + [n];
    assert forall k: nat :: k < n ==> more[k] == all[k];
    assert forall i :: 0 <= i < |at| ==> next[i] == at[i];
    assert more[n] == x && next[|at|] == n;
  }

  lemma SelectsNoMore<A, B>(all: seq<A>, at: seq<nat>, picked: seq<B>, take: A -> Option<B>, x: A)
    requires Selects(all, at, picked, take) && take(x).None?
    ensures Selects(all + [x], at, picked, take)
  {
    assert forall k: nat :: k < |all| ==> (all + [x])[k] == all[k];
  }

  lemma SelectionGrows<A, B>(all: seq<A>, picked: seq<B>, take: A -> Option<B>, x: A)
    requires IsSelection(all, picked, take)
    ensures IsSelection(all + [x], picked + (if take(x).Some? then [take(x).value] else []), take)
  {
    hide Selects;
    var at :| Selects(all, at, picked, take);
    if take(x).Some? {
      SelectsOneMore(all, at, picked, take, x, |all|);
    } else {
      SelectsNoMore(all, at, picked, take, x);
      assert picked + [] == picked;
    }
  }

  lemma SomethingTaken<A, B>(all: seq<A>, picked: seq<B>, take: A -> Option<B>)
    requires IsSelection(all, picked, take) && picked != []
    ensures exists x :: x in all && take(x).Some?
  {
    var at :| Selects(all, at, picked, take);
    assert all[at[0]] in all && take(all[at[0]]).Some?;
  }
}

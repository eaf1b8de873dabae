/** The Aho-Corasick automaton over a double-array trie: the goto function, the
    failure chains it is completed with, and the output sets those chains close. */
module Automaton {
  import opened Darts

  /** Sentinel for "no such transition": never a state the automaton is in. */
  const FailState := -1
  /** The start state. */
  const RootState := 1

  type Word = seq<char>

  /** Cell t = inState + input + ROOT_NODE_BASE of the double array belongs to inState. */
  predicate HasEdge(trie: DoubleArray, inState: int, input: int)
    requires trie.Sized()
  {
    var t := inState + input + RootNodeBase;
    0 <= t < |trie.base| && trie.check[t] == inState
  }

  /** The goto function g: the state reached from inState on a symbol.  From the
      failure sentinel every symbol leads back to the root; the root loops on
      every symbol it has no edge for; any other state fails. */
  function Goto(trie: DoubleArray, inState: int, input: int): (outState: int)
    requires trie.Sized()
    requires inState != FailState ==> inState + input + RootNodeBase >= 0
    ensures inState == FailState ==> outState == RootState
    ensures inState != FailState && HasEdge(trie, inState, input) ==>
              outState == trie.base[inState + input + RootNodeBase]
    ensures inState != FailState && !HasEdge(trie, inState, input) ==>
              outState == if inState == RootState then RootState else FailState
  {
    if inState == FailState then RootState
    else
      var t := inState + input + RootNodeBase;
      if t >= |trie.base| then
        if inState == RootState then RootState else FailState
      else if inState == trie.check[t] then trie.base[t]
      else if inState == RootState then RootState
      else FailState
  }

  /** A bound on the number of links followed from s before reaching the root. */
  function ChainLength(rank: map<int, nat>, s: int): nat
  {
    if s in rank then rank[s] + 1 else 0
  }

  /** The depth of a state, 0 for the root and anything not ranked. */
  function DepthOf(depth: map<int, nat>, s: int): nat
  {
    if s in depth then depth[s] else 0
  }

  /** The double array only leads from the root or a ranked state (on a
      non-negative symbol) back to the root or to a ranked state one level deeper. */
  ghost predicate Closed(trie: DoubleArray, depth: map<int, nat>)
    requires trie.Sized()
  {
    (forall s | s in depth :: s >= 0 && s != RootState) &&
    forall t | 0 <= t < |trie.base| ::
      (trie.check[t] == RootState || trie.check[t] in depth) &&
      t >= trie.check[t] + RootNodeBase ==>
        trie.base[t] == RootState ||
        (trie.base[t] in depth && depth[trie.base[t]] == DepthOf(depth, trie.check[t]) + 1)
  }

  /** No edge of the root leads to the failure sentinel. */
  ghost predicate RootTotal(trie: DoubleArray)
    requires trie.Sized()
  {
    forall t | 0 <= t < |trie.base| ::
      trie.check[t] == RootState && t >= RootState + RootNodeBase ==> trie.base[t] != FailState
  }

  /** The failure link of every ranked state is the root or a ranked state of
      strictly smaller rank: following links from a ranked state reaches the root. */
  ghost predicate Ranked(failure: seq<int>, rank: map<int, nat>)
  {
    forall s | s in rank ::
      0 <= s < |failure| && s != RootState &&
      (failure[s] == RootState || (failure[s] in rank && rank[failure[s]] < rank[s]))
  }

  /** g never fails from the root, for any symbol, in a closed double array. */
  lemma RootNeverFails(trie: DoubleArray, depth: map<int, nat>, input: int)
    requires trie.Sized() && RootNodeBase == RootState && input >= 0
    requires Closed(trie, depth)
    ensures RootTotal(trie)
    ensures Goto(trie, RootState, input) != FailState
  {
    if HasEdge(trie, RootState, input) {
      var t := RootState + input + RootNodeBase;
      assert trie.check[t] == RootState;
    }
  }

  /** g from the root or a ranked state lands on the root, on a ranked state one
      level deeper, or fails; the root itself never fails. */
  lemma GotoLands(trie: DoubleArray, depth: map<int, nat>, s: int, input: int)
    requires trie.Sized() && RootNodeBase == RootState && input >= 0
    requires Closed(trie, depth)
    requires s == RootState || s in depth
    ensures var r := Goto(trie, s, input);
      r == FailState || r == RootState ||
      (r in depth && depth[r] == DepthOf(depth, s) + 1)
    ensures s == RootState ==> Goto(trie, s, input) != FailState
  {
    if HasEdge(trie, s, input) {
      var t := s + input + RootNodeBase;
      assert trie.check[t] == s;
    }
  }

  /** The state the automaton moves to from s on a symbol: the first g that does
      not fail along s, f(s), f(f(s)), ... */
  ghost function FollowFail(trie: DoubleArray, failure: seq<int>, rank: map<int, nat>, s: int, input: int): (r: int)
    requires trie.Sized() && RootNodeBase == RootState && RootTotal(trie)
    requires Ranked(failure, rank) && input >= 0
    requires s == RootState || s == FailState || s in rank
    ensures r != FailState
    decreases ChainLength(rank, s)
  {
    var o := Goto(trie, s, input);
    if o != FailState then o
    else
      FollowFail(trie, failure, rank, failure[s], input)
  }

  /** A failure chain only reads the links of the states on it: extending the
      ranked part or changing links outside it does not change where it ends. */
  lemma {:induction false} FollowFailFrame(trie: DoubleArray, f1: seq<int>, r1: map<int, nat>,
                                            f2: seq<int>, r2: map<int, nat>, s: int, input: int)
    requires trie.Sized() && RootNodeBase == RootState && RootTotal(trie) && input >= 0
    requires Ranked(f1, r1) && Ranked(f2, r2)
    requires forall x | x in r1 :: x in r2 && r2[x] == r1[x] && f2[x] == f1[x]
    requires s == RootState || s == FailState || s in r1
    ensures FollowFail(trie, f1, r1, s, input) == FollowFail(trie, f2, r2, s, input)
    decreases ChainLength(r1, s)
  {
    if Goto(trie, s, input) == FailState {
      FollowFailFrame(trie, f1, r1, f2, r2, f1[s], input);
    }
  }

  /** Following failure links from s ends on the root or on a ranked state at
      most one level deeper than s. */
  lemma {:induction false} FollowFailLands(trie: DoubleArray, failure: seq<int>, rank: map<int, nat>,
                                            depth: map<int, nat>, s: int, input: int)
    requires trie.Sized() && RootNodeBase == RootState && input >= 0
    requires Closed(trie, depth) && RootTotal(trie) && Ranked(failure, rank)
    requires forall x | x in rank :: x in depth && depth[x] == rank[x]
    requires s == RootState || s == FailState || s in rank
    ensures var r := FollowFail(trie, failure, rank, s, input);
      r == RootState || (r in depth && depth[r] <= DepthOf(rank, s) + 1)
    decreases ChainLength(rank, s)
  {
    if s == FailState {
    } else if Goto(trie, s, input) == FailState {
      FollowFailLands(trie, failure, rank, depth, failure[s], input);
    } else {
      GotoLands(trie, depth, s, input);
    }
  }

  /** The output list of a state, empty when it has no entry. */
  function Out(output: map<int, seq<Word>>, s: int): (r: seq<Word>)
    ensures s !in output ==> r == []
  {
    if s in output then output[s] else []
  }

  /** The keyword the trie itself records as ending at s, as a list. */
  function Own(completions: map<int, Word>, s: int): (r: seq<Word>)
    ensures |r| <= 1
  {
    if s in completions then [completions[s]] else []
  }

  /** The output list a state should carry: the lists of its failure chain,
      innermost (shallowest) first, then its own keyword.  States of depth 1
      only carry their own keyword: their links are set before any merging. */
  ghost function ChainOutputs(failure: seq<int>, rank: map<int, nat>, completions: map<int, Word>, s: int): seq<Word>
    requires Ranked(failure, rank)
    requires s == RootState || s in rank
    decreases DepthOf(rank, s)
  {
    if s in rank && rank[s] >= 2 then ChainOutputs(failure, rank, completions, failure[s]) + Own(completions, s)
    else Own(completions, s)
  }

  /** The output lists after construction satisfy one local equation per state. */
  ghost predicate OutputClosed(failure: seq<int>, rank: map<int, nat>, completions: map<int, Word>,
                               output: map<int, seq<Word>>)
    requires Ranked(failure, rank)
  {
    Out(output, RootState) == Own(completions, RootState) &&
    (forall s | s in rank && rank[s] < 2 :: Out(output, s) == Own(completions, s)) &&
    (forall s {:trigger failure[s]} | s in rank && rank[s] >= 2 ::
       Out(output, s) == Out(output, failure[s]) + Own(completions, s))
  }

  /** The local equations determine every output list: it is the concatenation
      of the keywords along the failure chain. */
  lemma {:induction false} OutputsAlongChain(failure: seq<int>, rank: map<int, nat>, completions: map<int, Word>,
                                              output: map<int, seq<Word>>, s: int)
    requires Ranked(failure, rank) && OutputClosed(failure, rank, completions, output)
    requires s == RootState || s in rank
    ensures Out(output, s) == ChainOutputs(failure, rank, completions, s)
    decreases DepthOf(rank, s)
  {
    if s in rank && rank[s] >= 2 {
      OutputsAlongChain(failure, rank, completions, output, failure[s]);
    }
  }

  /** Every word in an output list is a keyword the trie recorded for some state. */
  lemma {:induction false} ChainOutputsAreKeywords(failure: seq<int>, rank: map<int, nat>,
                                                    completions: map<int, Word>, s: int, w: Word)
    requires Ranked(failure, rank)
    requires s == RootState || s in rank
    requires w in ChainOutputs(failure, rank, completions, s)
    ensures w in completions.Values
    decreases DepthOf(rank, s)
  {
    if s in rank && rank[s] >= 2 {
      if w in ChainOutputs(failure, rank, completions, failure[s]) {
        ChainOutputsAreKeywords(failure, rank, completions, failure[s], w);
      } else {
        assert w in Own(completions, s);
      }
    } else {
      assert w in Own(completions, s);
    }
  }
}

/** What the construction of the automaton needs from the trie library, and the
    invariant of its breadth-first pass.  A state's place is its level in the
    linked-list trie and its index in that level's breadth-first order. */
module Construction {
  import opened Darts
  import opened Automaton

  /** The level of every state. */
  ghost function Depths(where: map<int, (nat, nat)>): map<int, nat>
  {
    map s | s in where :: where[s].0
  }

  /** A node of level k >= 1 at index j: a keyword node is placed there and its
      children that are not end markers carry a symbol code; an end marker is a leaf. */
  ghost predicate NodeOk(x: Node, k: nat, j: nat, where: map<int, (nat, nat)>)
  {
    (x.base != EndNodeBase ==>
       x.base in where && where[x.base] == (k, j) &&
       forall q | 0 <= q < |x.children| :: x.children[q].base != EndNodeBase ==> x.children[q].code >= RootNodeBase) &&
    (x.base == EndNodeBase ==> x.children == [])
  }

  /** What the library's build must deliver: the double array is sized and
      closed over the trie's states, every root child's base indexes it, and
      `where` places every state of the linked-list trie exactly once. */
  ghost predicate WellFormed(lib: Library, levels: seq<seq<Node>>, where: map<int, (nat, nat)>)
  {
    var trie := lib.trie;
    var root := lib.root;
    trie.Sized() && RootNodeBase == RootState && Levels(root, levels) &&
    (forall j | 0 <= j < |root.children| :: 0 <= root.children[j].base < |trie.base|) &&
    (forall s | s in where ::
       1 <= where[s].0 < |levels| && where[s].1 < |levels[where[s].0]| &&
       levels[where[s].0][where[s].1].base == s &&
       0 <= s < |trie.base| && s != EndNodeBase) &&
    (forall k, j | 1 <= k < |levels| && 0 <= j < |levels[k]| :: NodeOk(levels[k][j], k, j, where)) &&
    Closed(trie, Depths(where))
  }

  /** The states linked so far, with their levels: every state up to level L
      and the first m states of level L + 1. */
  ghost function LinkedRank(where: map<int, (nat, nat)>, L: nat, m: nat): map<int, nat>
  {
    map s | s in where && (where[s].0 <= L || (where[s].0 == L + 1 && where[s].1 < m)) :: where[s].0
  }

  /** Child y of node p has its failure link: the end of p's failure chain on y's symbol. */
  ghost predicate LinkedChild(trie: DoubleArray, fs: seq<int>, rank: map<int, nat>, p: Node, y: Node)
    requires trie.Sized() && RootNodeBase == RootState && RootTotal(trie) && Ranked(fs, rank)
  {
    y.base == EndNodeBase ||
    (p.base in rank && y.base in rank && y.code >= RootNodeBase &&
     fs[y.base] == FollowFail(trie, fs, rank, fs[p.base], y.code - RootNodeBase))
  }

  /** Child q' of node j of level k has been processed once the pass stands at
      child q of node i of level L. */
  ghost predicate Done(L: nat, i: nat, q: nat, k: nat, j: nat, q': nat)
  {
    1 <= k && (k < L || (k == L && j < i) || (k == L && j == i && q' < q))
  }

  /** Output lists: unlinked states and states of level 1 keep the list the
      trie gave them; a linked deeper state carries its failure target's list
      followed by its own, and has an entry when either of them had one. */
  ghost predicate OutputInv(completions: map<int, Word>, output: map<int, seq<Word>>, fs: seq<int>, rank: map<int, nat>)
    requires Ranked(fs, rank)
  {
    (forall s | s !in rank || rank[s] < 2 ::
       Out(output, s) == Own(completions, s) && (s in output <==> s in completions)) &&
    (forall s {:trigger fs[s]} | s in rank && rank[s] >= 2 ::
       Out(output, s) == Out(output, fs[s]) + Own(completions, s) &&
       (s in output <==> s in completions || fs[s] in output))
  }

  /** Number of children of level L + 1 whose parents come before node i of level L. */
  ghost function Frontier(levels: seq<seq<Node>>, L: nat, i: nat, q: nat): nat
    requires L < |levels| && i <= |levels[L]|
  {
    |Children(levels[L][..i])| + q
  }

  /** Every processed child has its failure link. */
  ghost predicate ChildrenLinked(trie: DoubleArray, levels: seq<seq<Node>>, fs: seq<int>, rank: map<int, nat>,
                                 L: nat, i: nat, q: nat)
    requires trie.Sized() && RootNodeBase == RootState && RootTotal(trie) && Ranked(fs, rank)
  {
    forall k: nat, j: nat, q': nat |
      Done(L, i, q, k, j, q') && k < |levels| && j < |levels[k]| && q' < |levels[k][j].children| ::
      LinkedChild(trie, fs, rank, levels[k][j], levels[k][j].children[q'])
  }

  /** Every child of the root is linked to the root. */
  ghost predicate RootLinks(root: Node, fs: seq<int>)
  {
    forall j | 0 <= j < |root.children| ::
      0 <= root.children[j].base < |fs| && fs[root.children[j].base] == RootNodeBase
  }

  /** Where the pass stands: child q of node i of level L. */
  ghost predicate Position(levels: seq<seq<Node>>, L: nat, i: nat, q: nat)
  {
    1 <= L < |levels| && i <= |levels[L]| &&
    (q > 0 ==> i < |levels[L]| && q <= |levels[L][i].children|)
  }

  /** The invariant of the pass, standing at child q of node i of level L. */
  ghost predicate BuildInv(lib: Library, levels: seq<seq<Node>>, where: map<int, (nat, nat)>, fs: seq<int>,
                           output: map<int, seq<Word>>, L: nat, i: nat, q: nat)
    requires lib.trie.Sized() && RootNodeBase == RootState
  {
    Position(levels, L, i, q) &&
    |fs| == |lib.trie.base| && RootTotal(lib.trie) && RootLinks(lib.root, fs) &&
    var rank := LinkedRank(where, L, Frontier(levels, L, i, q));
    Ranked(fs, rank) &&
    ChildrenLinked(lib.trie, levels, fs, rank, L, i, q) &&
    OutputInv(lib.completions, output, fs, rank)
  }

  /** Node i of level L's children sit at the frontier of level L + 1. */
  lemma {:induction false} ChildPlace(lib: Library, levels: seq<seq<Node>>, where: map<int, (nat, nat)>, L: nat, i: nat, q: nat)
    requires WellFormed(lib, levels, where) && 1 <= L < |levels|
    requires i < |levels[L]| && q < |levels[L][i].children|
    ensures var y := levels[L][i].children[q];
      var m := Frontier(levels, L, i, q);
      L + 1 < |levels| && m < |levels[L + 1]| && levels[L + 1][m] == y &&
      (y.base != EndNodeBase ==> y.base in where && where[y.base] == (L + 1, m))
  {
    ChildAt(levels[L], i, q);
    if L + 1 < |levels| {
      NextLevel(lib.root, levels, L);
      var m := Frontier(levels, L, i, q);
      assert NodeOk(levels[L + 1][m], L + 1, m, where);
    }
  }

  /** The pass starts with the root's children linked to the root and the
      output lists as the trie gave them. */
  lemma {:induction false} InitInv(lib: Library, levels: seq<seq<Node>>, where: map<int, (nat, nat)>, fs: seq<int>,
                output: map<int, seq<Word>>)
    requires WellFormed(lib, levels, where)
    requires |fs| == |lib.trie.base|
    requires forall j | 0 <= j < |lib.root.children| :: fs[lib.root.children[j].base] == RootNodeBase
    requires output == map s | s in lib.completions :: [lib.completions[s]]
    ensures BuildInv(lib, levels, where, fs, output, 1, 0, 0)
  {
    var root := lib.root;
    LevelOne(root, levels);
    RootNeverFails(lib.trie, Depths(where), 0);
    assert levels[1][..0] == [];
    var rank := LinkedRank(where, 1, Frontier(levels, 1, 0, 0));
    forall s | s in rank
      ensures 0 <= s < |fs| && s != RootState && fs[s] == RootState
    {
      assert where[s].0 == 1 && s in Depths(where);
      assert root.children[where[s].1].base == s;
    }
  }

  /** Once level L is done, and level L + 1 holds nothing beyond its first n
      nodes, the states linked are those up to level L + 1. */
  lemma {:induction false} RankLevelDone(where: map<int, (nat, nat)>, L: nat, n: nat)
    requires forall s | s in where :: where[s].0 == L + 1 ==> where[s].1 < n
    ensures LinkedRank(where, L, n) == LinkedRank(where, L + 1, 0)
  {
    var rank := LinkedRank(where, L, n);
    var rank' := LinkedRank(where, L + 1, 0);
    forall s | s in where
      ensures s in rank <==> s in rank'
    {
    }
    assert rank.Keys == rank'.Keys;
  }

  /** Once a level is finished the pass moves to the first node of the next. */
  lemma {:induction false} LevelUp(lib: Library, levels: seq<seq<Node>>, where: map<int, (nat, nat)>, fs: seq<int>,
                output: map<int, seq<Word>>, L: nat)
    requires WellFormed(lib, levels, where) && L + 1 < |levels|
    requires BuildInv(lib, levels, where, fs, output, L, |levels[L]|, 0)
    ensures BuildInv(lib, levels, where, fs, output, L + 1, 0, 0)
  {
    var n := |levels[L]|;
    assert levels[L][..n] == levels[L];
    assert levels[L + 1][..0] == [];
    NextLevel(lib.root, levels, L);
    forall s | s in where && where[s].0 == L + 1
      ensures where[s].1 < |Children(levels[L])|
    {
    }
    RankLevelDone(where, L, |Children(levels[L])|);
  }

  /** When no state is placed at (L + 1, m), moving the frontier past m links nothing. */
  lemma {:induction false} RankSame(where: map<int, (nat, nat)>, L: nat, m: nat)
    requires forall s | s in where :: where[s] != (L + 1, m)
    ensures LinkedRank(where, L, m + 1) == LinkedRank(where, L, m)
  {
    var rank := LinkedRank(where, L, m);
    var rank' := LinkedRank(where, L, m + 1);
    forall s | s in where
      ensures s in rank' <==> s in rank
    {
    }
    assert rank'.Keys == rank.Keys;
  }

  /** The state placed at (L + 1, m), and only it, joins the linked ones when
      the frontier moves past m. */
  lemma {:induction false} RankGrows(where: map<int, (nat, nat)>, L: nat, m: nat, x: int)
    requires x in where && where[x] == (L + 1, m)
    requires forall s | s in where && where[s] == (L + 1, m) :: s == x
    ensures x !in LinkedRank(where, L, m)
    ensures LinkedRank(where, L, m + 1) == LinkedRank(where, L, m)[x := L + 1]
  {
    var rank := LinkedRank(where, L, m);
    var rank' := LinkedRank(where, L, m + 1);
    var grown := rank[x := L + 1];
    forall s | s in where
      ensures s in rank' <==> s in grown
    {
    }
    assert rank'.Keys == grown.Keys;
    forall s | s in rank'
      ensures rank'[s] == grown[s]
    {
    }
    assert rank' == grown;
  }

  /** Skipping an end marker links no new state. */
  lemma {:induction false} SkipEndRank(lib: Library, levels: seq<seq<Node>>, where: map<int, (nat, nat)>, L: nat, i: nat, q: nat)
    requires WellFormed(lib, levels, where) && 1 <= L < |levels|
    requires i < |levels[L]| && q < |levels[L][i].children|
    requires levels[L][i].children[q].base == EndNodeBase
    ensures LinkedRank(where, L, Frontier(levels, L, i, q + 1)) == LinkedRank(where, L, Frontier(levels, L, i, q))
  {
    ChildPlace(lib, levels, where, L, i, q);
    var m := Frontier(levels, L, i, q);
    forall s | s in where
      ensures where[s] != (L + 1, m)
    {
      assert levels[where[s].0][where[s].1].base == s;
    }
    RankSame(where, L, m);
  }

  /** A child that only marks the end of a keyword is skipped. */
  lemma {:induction false} SkipEnd(lib: Library, levels: seq<seq<Node>>, where: map<int, (nat, nat)>, fs: seq<int>,
                output: map<int, seq<Word>>, L: nat, i: nat, q: nat)
    requires WellFormed(lib, levels, where) && BuildInv(lib, levels, where, fs, output, L, i, q)
    requires i < |levels[L]| && q < |levels[L][i].children|
    requires levels[L][i].children[q].base == EndNodeBase
    ensures BuildInv(lib, levels, where, fs, output, L, i, q + 1)
  {
    SkipEndRank(lib, levels, where, L, i, q);
    var rank := LinkedRank(where, L, Frontier(levels, L, i, q));
    assert ChildrenLinked(lib.trie, levels, fs, rank, L, i, q + 1) by {
      forall k: nat, j: nat, q': nat |
        Done(L, i, q + 1, k, j, q') && k < |levels| && j < |levels[k]| && q' < |levels[k][j].children|
        ensures LinkedChild(lib.trie, fs, rank, levels[k][j], levels[k][j].children[q'])
      {
        if !Done(L, i, q, k, j, q') {
          assert k == L && j == i && q' == q;
        }
      }
    }
  }

  /** Once all children of node i are processed the pass moves to node i + 1. */
  lemma {:induction false} NextNode(lib: Library, levels: seq<seq<Node>>, where: map<int, (nat, nat)>, fs: seq<int>,
                 output: map<int, seq<Word>>, L: nat, i: nat)
    requires WellFormed(lib, levels, where) && L < |levels| && i < |levels[L]|
    requires BuildInv(lib, levels, where, fs, output, L, i, |levels[L][i].children|)
    ensures BuildInv(lib, levels, where, fs, output, L, i + 1, 0)
  {
    ChildrenStep(levels[L], i);
    assert Frontier(levels, L, i, |levels[L][i].children|) == Frontier(levels, L, i + 1, 0);
  }

  /** Linking a non-end child adds exactly its state, at the next level, to the linked ones. */
  lemma {:induction false} LinkRank(lib: Library, levels: seq<seq<Node>>, where: map<int, (nat, nat)>, L: nat, i: nat, q: nat)
    requires WellFormed(lib, levels, where) && 1 <= L < |levels|
    requires i < |levels[L]| && q < |levels[L][i].children|
    requires levels[L][i].children[q].base != EndNodeBase
    ensures var x := levels[L][i].children[q].base;
      x in where && where[x] == (L + 1, Frontier(levels, L, i, q))
    ensures var x := levels[L][i].children[q].base;
      x !in LinkedRank(where, L, Frontier(levels, L, i, q))
    ensures var x := levels[L][i].children[q].base;
      var m := Frontier(levels, L, i, q);
      LinkedRank(where, L, m + 1) == LinkedRank(where, L, m)[x := L + 1]
  {
    ChildPlace(lib, levels, where, L, i, q);
    var x := levels[L][i].children[q].base;
    var m := Frontier(levels, L, i, q);
    forall s | s in where && where[s] == (L + 1, m)
      ensures s == x
    {
      assert levels[where[s].0][where[s].1].base == s;
    }
    RankGrows(where, L, m, x);
  }

  /** When every state of level at most L is linked, the failure chain from the
      link of a linked state of level L ends on the root or a linked state of
      level at most L. */
  lemma {:induction false} ChainEndsLinked(trie: DoubleArray, fs: seq<int>, rank: map<int, nat>, depth: map<int, nat>,
                        s: int, input: int, L: nat)
    requires trie.Sized() && RootNodeBase == RootState && input >= 0
    requires Closed(trie, depth) && RootTotal(trie) && Ranked(fs, rank)
    requires forall x | x in rank :: x in depth && depth[x] == rank[x]
    requires forall x | x in depth && depth[x] <= L :: x in rank
    requires s in rank && rank[s] == L && L >= 1
    ensures fs[s] == RootState || fs[s] in rank
    ensures var out := FollowFail(trie, fs, rank, fs[s], input);
      out == RootState || (out in rank && rank[out] <= L)
  {
    FollowFailLands(trie, fs, rank, depth, fs[s], input);
    assert DepthOf(rank, fs[s]) < L;
  }

  /** The node whose child is about to be linked is linked, at level L, its
      failure link is the root or linked, and the child carries a symbol. */
  ghost predicate ParentReady(lib: Library, levels: seq<seq<Node>>, where: map<int, (nat, nat)>, fs: seq<int>,
                              L: nat, i: nat, q: nat)
    requires WellFormed(lib, levels, where) && L < |levels| && i < |levels[L]| && q < |levels[L][i].children|
  {
    var p := levels[L][i];
    var rank := LinkedRank(where, L, Frontier(levels, L, i, q));
    p.base in rank && rank[p.base] == L && 0 <= p.base < |fs| &&
    (fs[p.base] == RootState || fs[p.base] in rank) &&
    p.children[q].code >= RootNodeBase
  }

  /** Before a non-end child is linked, its parent is ready, and the end of
      the parent's failure chain on the child's symbol is the root or a state
      already linked at level at most L. */
  lemma {:induction false} LinkTarget(lib: Library, levels: seq<seq<Node>>, where: map<int, (nat, nat)>, fs: seq<int>,
                   output: map<int, seq<Word>>, L: nat, i: nat, q: nat)
    requires WellFormed(lib, levels, where) && BuildInv(lib, levels, where, fs, output, L, i, q)
    requires i < |levels[L]| && q < |levels[L][i].children|
    requires levels[L][i].children[q].base != EndNodeBase
    ensures ParentReady(lib, levels, where, fs, L, i, q)
    ensures var p := levels[L][i];
      var rank := LinkedRank(where, L, Frontier(levels, L, i, q));
      var out := FollowFail(lib.trie, fs, rank, fs[p.base], p.children[q].code - RootNodeBase);
      out == RootState || (out in rank && rank[out] <= L)
  {
    var p := levels[L][i];
    var y := p.children[q];
    var rank := LinkedRank(where, L, Frontier(levels, L, i, q));
    assert NodeOk(p, L, i, where);
    ChainEndsLinked(lib.trie, fs, rank, Depths(where), p.base, y.code - RootNodeBase, L);
  }

  /** Giving an unranked state a link to the root or to a state of smaller
      rank keeps every chain ranked. */
  lemma {:induction false} RankedExtend(fs: seq<int>, rank: map<int, nat>, x: int, r: nat, out: int)
    requires Ranked(fs, rank) && x !in rank && 0 <= x < |fs| && x != RootState
    requires out == RootState || (out in rank && rank[out] < r)
    ensures Ranked(fs[x := out], rank[x := r])
  {
  }

  /** Prepending the failure target's list to a newly linked state keeps the
      output lists closed. */
  lemma {:induction false} OutputExtend(completions: map<int, Word>, output: map<int, seq<Word>>, fs: seq<int>, rank: map<int, nat>,
                     x: int, r: nat, out: int, output': map<int, seq<Word>>, fs': seq<int>, rank': map<int, nat>)
    requires Ranked(fs, rank) && OutputInv(completions, output, fs, rank)
    requires x !in rank && 0 <= x < |fs| && x != RootState && r >= 2
    requires out == RootState || (out in rank && rank[out] < r)
    requires output' == if out in output then output[x := output[out] + Out(output, x)] else output
    requires fs' == fs[x := out] && rank' == rank[x := r]
    ensures Ranked(fs', rank')
    ensures OutputInv(completions, output', fs', rank')
  {
    RankedExtend(fs, rank, x, r, out);
    if out in output {
      OutputExtendEntry(completions, output, fs, rank, x, r, out, output', fs', rank');
    } else {
      OutputExtendNoEntry(completions, output, fs, rank, x, r, out, fs', rank');
    }
  }

  /** The case of OutputExtend where the failure target has no output entry. */
  lemma {:induction false} OutputExtendNoEntry(completions: map<int, Word>, output: map<int, seq<Word>>, fs: seq<int>,
                                               rank: map<int, nat>, x: int, r: nat, out: int, fs': seq<int>, rank': map<int, nat>)
    requires Ranked(fs, rank) && OutputInv(completions, output, fs, rank)
    requires x !in rank && 0 <= x < |fs| && x != RootState && r >= 2
    requires out == RootState || (out in rank && rank[out] < r)
    requires out !in output
    requires fs' == fs[x := out] && rank' == rank[x := r] && Ranked(fs', rank')
    ensures OutputInv(completions, output, fs', rank')
  {
    forall s | s !in rank' || rank'[s] < 2
      ensures Out(output, s) == Own(completions, s) && (s in output <==> s in completions)
    {
      assert s != x && (s !in rank || rank[s] < 2);
    }
    forall s | s in rank' && rank'[s] >= 2
      ensures Out(output, s) == Out(output, fs'[s]) + Own(completions, s)
      ensures s in output <==> s in completions || fs'[s] in output
    {
      if s == x {
        assert Out(output, x) == Own(completions, x);
        assert Out(output, out) == [];
      } else {
        assert rank[s] >= 2 && fs'[s] == fs[s];
      }
    }
  }

  /** The case of OutputExtend where the failure target has an output entry. */
  lemma {:induction false} OutputExtendEntry(completions: map<int, Word>, output: map<int, seq<Word>>, fs: seq<int>, rank: map<int, nat>,
                          x: int, r: nat, out: int, output': map<int, seq<Word>>, fs': seq<int>, rank': map<int, nat>)
    requires Ranked(fs, rank) && OutputInv(completions, output, fs, rank)
    requires x !in rank && 0 <= x < |fs| && x != RootState && r >= 2
    requires out == RootState || (out in rank && rank[out] < r)
    requires out in output && output' == output[x := output[out] + Out(output, x)]
    requires fs' == fs[x := out] && rank' == rank[x := r] && Ranked(fs', rank')
    ensures OutputInv(completions, output', fs', rank')
  {
    assert out != x;
    forall s | s !in rank' || rank'[s] < 2
      ensures Out(output', s) == Own(completions, s) && (s in output' <==> s in completions)
    {
      assert s != x && (s !in rank || rank[s] < 2);
      assert Out(output', s) == Out(output, s);
    }
    forall s | s in rank' && rank'[s] >= 2
      ensures Out(output', s) == Out(output', fs'[s]) + Own(completions, s)
      ensures s in output' <==> s in completions || fs'[s] in output'
    {
      if s == x {
        assert Out(output, x) == Own(completions, x);
        assert Out(output', out) == Out(output, out);
      } else {
        assert rank[s] >= 2 && fs'[s] == fs[s] && fs[s] != x;
        assert Out(output', s) == Out(output, s);
        assert Out(output', fs[s]) == Out(output, fs[s]);
      }
    }
  }

  /** Children processed before stay linked when links are only added, and
      the child just processed is linked too. */
  lemma {:induction false} ChildrenExtend(trie: DoubleArray, levels: seq<seq<Node>>, fs: seq<int>, rank: map<int, nat>,
                       fs': seq<int>, rank': map<int, nat>, L: nat, i: nat, q: nat)
    requires trie.Sized() && RootNodeBase == RootState && RootTotal(trie)
    requires Ranked(fs, rank) && Ranked(fs', rank')
    requires forall s | s in rank :: s in rank' && rank'[s] == rank[s] && fs'[s] == fs[s]
    requires ChildrenLinked(trie, levels, fs, rank, L, i, q)
    requires L < |levels| && i < |levels[L]| && q < |levels[L][i].children|
    requires LinkedChild(trie, fs', rank', levels[L][i], levels[L][i].children[q])
    ensures ChildrenLinked(trie, levels, fs', rank', L, i, q + 1)
  {
    forall k: nat, j: nat, q': nat |
      Done(L, i, q + 1, k, j, q') && k < |levels| && j < |levels[k]| && q' < |levels[k][j].children|
      ensures LinkedChild(trie, fs', rank', levels[k][j], levels[k][j].children[q'])
    {
      if Done(L, i, q, k, j, q') {
        var p' := levels[k][j];
        var y' := p'.children[q'];
        assert LinkedChild(trie, fs, rank, p', y');
        if y'.base != EndNodeBase {
          FollowFailFrame(trie, fs, rank, fs', rank', fs[p'.base], y'.code - RootNodeBase);
        }
      } else {
        assert k == L && j == i && q' == q;
      }
    }
  }

  /** Linking child q of node i of level L to the end of its parent's failure
      chain on the child's symbol (out), and putting that state's output list
      in front of the child's own, keeps the invariant and moves to the next child. */
  lemma {:induction false} LinkStep(lib: Library, levels: seq<seq<Node>>, where: map<int, (nat, nat)>, fs: seq<int>,
                 output: map<int, seq<Word>>, L: nat, i: nat, q: nat,
                 out: int, fs': seq<int>, output': map<int, seq<Word>>)
    requires WellFormed(lib, levels, where) && BuildInv(lib, levels, where, fs, output, L, i, q)
    requires i < |levels[L]| && q < |levels[L][i].children|
    requires levels[L][i].children[q].base != EndNodeBase
    requires ParentReady(lib, levels, where, fs, L, i, q)
    requires var p := levels[L][i];
      out == FollowFail(lib.trie, fs, LinkedRank(where, L, Frontier(levels, L, i, q)), fs[p.base], p.children[q].code - RootNodeBase)
    requires var y := levels[L][i].children[q];
      0 <= y.base < |fs| && fs' == fs[y.base := out] &&
      output' == if out in output then output[y.base := output[out] + Out(output, y.base)] else output
    ensures BuildInv(lib, levels, where, fs', output', L, i, q + 1)
  {
    LinkTarget(lib, levels, where, fs, output, L, i, q);
    LinkRank(lib, levels, where, L, i, q);
    NewStateFresh(lib, levels, where, fs, L, i, q, out);
    LinkExtend(lib, levels, where, fs, output, L, i, q, out, fs', output');
  }

  /** The step of LinkStep once the new state is known to be fresh: the
      invariant's parts are rebuilt one by one for the extended tables. */
  lemma {:induction false} LinkExtend(lib: Library, levels: seq<seq<Node>>, where: map<int, (nat, nat)>, fs: seq<int>,
                                      output: map<int, seq<Word>>, L: nat, i: nat, q: nat,
                                      out: int, fs': seq<int>, output': map<int, seq<Word>>)
    requires lib.trie.Sized() && RootNodeBase == RootState
    requires BuildInv(lib, levels, where, fs, output, L, i, q)
    requires i < |levels[L]| && q < |levels[L][i].children|
    requires var p := levels[L][i];
      var y := p.children[q];
      var m := Frontier(levels, L, i, q);
      var rank := LinkedRank(where, L, m);
      p.base in rank && 0 <= p.base < |fs| && (fs[p.base] == RootState || fs[p.base] in rank) &&
      y.code >= RootNodeBase && 0 <= y.base < |fs| && y.base != RootState && y.base !in rank &&
      LinkedRank(where, L, m + 1) == rank[y.base := L + 1] &&
      out == FollowFail(lib.trie, fs, rank, fs[p.base], y.code - RootNodeBase) &&
      (out == RootState || (out in rank && rank[out] <= L)) &&
      fs' == fs[y.base := out] && RootLinks(lib.root, fs') &&
      output' == if out in output then output[y.base := output[out] + Out(output, y.base)] else output
    ensures BuildInv(lib, levels, where, fs', output', L, i, q + 1)
  {
    var trie := lib.trie;
    var p := levels[L][i];
    var y := p.children[q];
    var rank := LinkedRank(where, L, Frontier(levels, L, i, q));
    var rank' := LinkedRank(where, L, Frontier(levels, L, i, q + 1));
    assert Ranked(fs', rank') && OutputInv(lib.completions, output', fs', rank') by {
      OutputExtend(lib.completions, output, fs, rank, y.base, L + 1, out, output', fs', rank');
    }
    assert ChildrenLinked(trie, levels, fs', rank', L, i, q + 1) by {
      NewChildLinked(trie, fs, rank, p, y, out, fs', rank');
      ChildrenExtend(trie, levels, fs, rank, fs', rank', L, i, q);
    }
  }

  /** A state about to be linked is neither the root nor a child of the root,
      so linking it keeps the root's children on the root. */
  lemma {:induction false} NewStateFresh(lib: Library, levels: seq<seq<Node>>, where: map<int, (nat, nat)>, fs: seq<int>,
                                         L: nat, i: nat, q: nat, out: int)
    requires WellFormed(lib, levels, where) && 1 <= L < |levels| && |fs| == |lib.trie.base|
    requires i < |levels[L]| && q < |levels[L][i].children|
    requires levels[L][i].children[q].base != EndNodeBase
    requires RootLinks(lib.root, fs)
    ensures var x := levels[L][i].children[q].base;
      0 <= x < |fs| && x != RootState && RootLinks(lib.root, fs[x := out])
  {
    var y := levels[L][i].children[q];
    ChildPlace(lib, levels, where, L, i, q);
    assert y.base in Depths(where);
    LevelOne(lib.root, levels);
    forall j | 0 <= j < |lib.root.children|
      ensures lib.root.children[j].base != y.base
    {
      assert NodeOk(levels[1][j], 1, j, where);
    }
  }

  /** The child linked to the end of its parent's failure chain satisfies
      LinkedChild once its state joins the ranked ones. */
  lemma {:induction false} NewChildLinked(trie: DoubleArray, fs: seq<int>, rank: map<int, nat>, p: Node, y: Node,
                                          out: int, fs': seq<int>, rank': map<int, nat>)
    requires trie.Sized() && RootNodeBase == RootState && RootTotal(trie) && Ranked(fs, rank)
    requires p.base in rank && y.base !in rank && 0 <= y.base < |fs| && y.code >= RootNodeBase
    requires fs[p.base] == RootState || fs[p.base] in rank
    requires out == FollowFail(trie, fs, rank, fs[p.base], y.code - RootNodeBase)
    requires fs' == fs[y.base := out] && y.base in rank' && Ranked(fs', rank')
    requires forall s | s in rank :: s in rank' && rank'[s] == rank[s]
    ensures LinkedChild(trie, fs', rank', p, y)
  {
    assert fs'[p.base] == fs[p.base];
    FollowFailFrame(trie, fs, rank, fs', rank', fs[p.base], y.code - RootNodeBase);
  }

  /** When every state sits at a level of at most L, the states linked up to
      level L are all of them, at their levels. */
  lemma {:induction false} RankAll(where: map<int, (nat, nat)>, L: nat)
    requires forall s | s in where :: where[s].0 <= L
    ensures LinkedRank(where, L, 0) == Depths(where)
  {
    var rank := LinkedRank(where, L, 0);
    var depth := Depths(where);
    forall s | s in where
      ensures s in rank && s in depth
    {
    }
    assert rank.Keys == depth.Keys;
    forall s | s in rank
      ensures rank[s] == depth[s]
    {
    }
  }

  /** When the queue runs empty the pass has linked every state of the trie:
      the failure links are ranked by depth, every child of every node has
      its link, and the output lists are closed along the failure links. */
  lemma {:induction false} Finish(lib: Library, levels: seq<seq<Node>>, where: map<int, (nat, nat)>, fs: seq<int>,
                                  output: map<int, seq<Word>>, L: nat, i: nat)
    requires WellFormed(lib, levels, where) && L < |levels| && i <= |levels[L]| && QueueAt(levels, L, i, [])
    requires BuildInv(lib, levels, where, fs, output, L, i, 0)
    ensures Ranked(fs, Depths(where))
    ensures ChildrenLinked(lib.trie, levels, fs, Depths(where), |levels|, 0, 0)
    ensures OutputClosed(fs, Depths(where), lib.completions, output)
  {
    QueueEmpty(levels, L, i);
    var n := |levels[L]|;
    assert levels[L][..n] == levels[L];
    forall s | s in where
      ensures where[s].0 <= L
    {
      if where[s].0 > L {
        LevelsEndAt(lib.root, levels, L, where[s].0);
      }
    }
    RankAll(where, L);
    var depth := Depths(where);
    assert ChildrenLinked(lib.trie, levels, fs, depth, |levels|, 0, 0) by {
      forall k: nat, j: nat, q': nat |
        Done(|levels|, 0, 0, k, j, q') && k < |levels| && j < |levels[k]| && q' < |levels[k][j].children|
        ensures LinkedChild(lib.trie, fs, depth, levels[k][j], levels[k][j].children[q'])
      {
        if k > L {
          LevelsEndAt(lib.root, levels, L, k);
        }
        assert Done(L, n, 0, k, j, q');
      }
    }
    assert RootState !in depth;
  }

  /** The node at the head of a non-empty queue, with the invariant standing
      at it: when level L is done the pass first moves to the next level. */
  lemma {:induction false} QueueHead(lib: Library, levels: seq<seq<Node>>, where: map<int, (nat, nat)>, fs: seq<int>,
                                     output: map<int, seq<Word>>, L: nat, i: nat, queue: seq<Node>)
    returns (L': nat, i': nat)
    requires WellFormed(lib, levels, where) && 1 <= L < |levels| && i <= |levels[L]|
    requires QueueAt(levels, L, i, queue) && queue != []
    requires BuildInv(lib, levels, where, fs, output, L, i, 0)
    ensures 1 <= L' < |levels| && i' < |levels[L']| && queue[0] == levels[L'][i']
    ensures BuildInv(lib, levels, where, fs, output, L', i', 0)
    ensures QueueAt(levels, L', i' + 1, (queue + queue[0].children)[1..])
    ensures TotalSize((queue + queue[0].children)[1..]) < TotalSize(queue)
  {
    L', i' := L, i;
    if i == |levels[L]| {
      assert L + 1 < |levels| && QueueAt(levels, L + 1, 0, queue) by {
        QueueLevelUp(lib.root, levels, L, queue);
      }
      assert BuildInv(lib, levels, where, fs, output, L + 1, 0, 0) by {
        LevelUp(lib, levels, where, fs, output, L);
      }
      L', i' := L + 1, 0;
    }
    QueueStep(levels, L', i', queue);
  }
}

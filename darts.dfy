/** The interface of the double-array trie library the automaton is built on.
    The library itself (how it lays keywords out in Base/Check) is not part of
    this model: its results are taken as given values, and the constants it
    exports are left abstract. */
module Darts {

  /** ROOT_NODE_BASE: base of the root node, also the offset added to a state to
      index the double array. Its value belongs to the library. */
  const RootNodeBase: int

  /** END_NODE_BASE: base stored in the leaf node that marks the end of a keyword. */
  const EndNodeBase: int

  /** The double array: a transition from state s on code k lands in cell
      t = s + k; the cell belongs to s when Check[t] == s, and Base[t] is the
      state reached. */
  datatype DoubleArray = DoubleArray(base: seq<int>, check: seq<int>)
  {
    /** Every index of Base is also an index of Check. */
    predicate Sized() { |base| <= |check| }
  }

  /** A node of the linked-list trie: its code (symbol + ROOT_NODE_BASE, or the
      end marker), its base (the state it stands for) and its children in order. */
  datatype Node = Node(code: int, base: int, children: seq<Node>)

  /** Everything the library's build hands back: the double array, the root of
      the linked-list trie and the state -> completed keyword association. */
  datatype Library = Library(trie: DoubleArray, root: Node, completions: map<int, seq<char>>)

  /** The children of a sequence of nodes, concatenated in order. */
  function Children(ns: seq<Node>): (r: seq<Node>)
    ensures ns == [] ==> r == []
  {
    if ns == [] then [] else Children(ns[..|ns| - 1]) + ns[|ns| - 1].children
  }

  /** levels lists the nodes of the trie level by level, each in breadth-first
      order: level 0 is the root, every next level is the children of the one
      before, and the last level has no children. */
  ghost predicate Levels(root: Node, levels: seq<seq<Node>>)
  {
    |levels| >= 2 && levels[0] == [root] &&
    (forall k {:trigger Children(levels[k])} | 0 <= k < |levels| - 1 :: levels[k + 1] == Children(levels[k])) &&
    Children(levels[|levels| - 1]) == []
  }

  /** Number of nodes in a tree. */
  function Size(n: Node): nat
  {
    1 + TotalSize(n.children)
  }

  /** Number of nodes in a sequence of trees. */
  function TotalSize(ns: seq<Node>): nat
  {
    if ns == [] then 0 else Size(ns[0]) + TotalSize(ns[1..])
  }

  lemma {:induction false} TotalSizeAppend(a: seq<Node>, b: seq<Node>)
    ensures TotalSize(a + b) == TotalSize(a) + TotalSize(b)
  {
    if a == [] {
      assert a + b == b;
    } else {
      assert (a + b)[1..] == a[1..] + b;
      TotalSizeAppend(a[1..], b);
    }
  }

  /** Dequeuing the head of a queue of subtrees and enqueuing its children
      leaves one node fewer to visit. */
  lemma DequeueShrinks(q: seq<Node>)
    requires q != []
    ensures TotalSize(q[1..] + q[0].children) == TotalSize(q) - 1
  {
    TotalSizeAppend(q[1..], q[0].children);
  }

  lemma ChildrenStep(ns: seq<Node>, i: nat)
    requires i < |ns|
    ensures Children(ns[..i + 1]) == Children(ns[..i]) + ns[i].children
  {
    assert ns[..i + 1][..i] == ns[..i];
  }

  lemma {:induction false} ChildrenPrefix(ns: seq<Node>, i: nat)
    requires i <= |ns|
    ensures |Children(ns[..i])| <= |Children(ns)|
    ensures Children(ns[..i]) == Children(ns)[..|Children(ns[..i])|]
    decreases |ns| - i
  {
    if i == |ns| {
      assert ns[..i] == ns;
    } else {
      ChildrenPrefix(ns, i + 1);
      ChildrenStep(ns, i);
    }
  }

  /** The children of node i of a level sit at positions
      |Children(ns[..i])| .. of the next level, in order. */
  lemma ChildAt(ns: seq<Node>, i: nat, q: nat)
    requires i < |ns| && q < |ns[i].children|
    ensures |Children(ns[..i])| + q < |Children(ns)|
    ensures Children(ns)[|Children(ns[..i])| + q] == ns[i].children[q]
  {
    ChildrenStep(ns, i);
    ChildrenPrefix(ns, i + 1);
  }

  lemma NextLevel(root: Node, levels: seq<seq<Node>>, k: nat)
    requires Levels(root, levels) && k < |levels| - 1
    ensures levels[k + 1] == Children(levels[k])
  {
  }

  /** The first level is the root's children. */
  lemma LevelOne(root: Node, levels: seq<seq<Node>>)
    requires Levels(root, levels)
    ensures levels[1] == root.children
  {
    NextLevel(root, levels, 0);
    assert [root][..0] == [];
  }

  /** Once a level has no children, every deeper level is empty. */
  lemma {:induction false} LevelsEndAt(root: Node, levels: seq<seq<Node>>, k: nat, k': nat)
    requires Levels(root, levels) && k < k' < |levels| && Children(levels[k]) == []
    ensures levels[k'] == []
    decreases k' - k
  {
    NextLevel(root, levels, k);
    if k + 1 < k' {
      LevelsEndAt(root, levels, k + 1, k');
    }
  }

  /** The breadth-first queue standing at node i of level L holds the rest of
      level L followed by the children of the nodes of level L already visited. */
  predicate QueueAt(levels: seq<seq<Node>>, L: nat, i: nat, queue: seq<Node>)
    requires L < |levels| && i <= |levels[L]|
  {
    queue == levels[L][i..] + Children(levels[L][..i])
  }

  /** Dequeuing node i of level L and enqueuing its children moves the queue
      to node i + 1, and leaves fewer nodes to visit. */
  lemma QueueStep(levels: seq<seq<Node>>, L: nat, i: nat, queue: seq<Node>)
    requires L < |levels| && i < |levels[L]| && QueueAt(levels, L, i, queue)
    ensures queue != [] && queue[0] == levels[L][i]
    ensures QueueAt(levels, L, i + 1, (queue + queue[0].children)[1..])
    ensures TotalSize((queue + queue[0].children)[1..]) < TotalSize(queue)
  {
    var rest := levels[L][i..];
    var seen := Children(levels[L][..i]);
    var y := levels[L][i].children;
    ChildrenStep(levels[L], i);
    DequeueShrinks(queue);
    assert rest[1..] == levels[L][i + 1..];
    assert queue[1..] == rest[1..] + seen;
    calc {
      (queue + queue[0].children)[1..];
      queue[1..] + y;
      (rest[1..] + seen) + y;
      rest[1..] + (seen + y);
    }
  }

  /** Once a level is visited and the queue is not empty, the queue holds
      exactly the next level. */
  lemma QueueLevelUp(root: Node, levels: seq<seq<Node>>, L: nat, queue: seq<Node>)
    requires Levels(root, levels) && L < |levels| && QueueAt(levels, L, |levels[L]|, queue) && queue != []
    ensures L + 1 < |levels| && QueueAt(levels, L + 1, 0, queue)
  {
    assert levels[L][..|levels[L]|] == levels[L];
    if L + 1 < |levels| {
      NextLevel(root, levels, L);
      assert levels[L + 1][..0] == [];
    }
  }

  /** An empty queue means the last node of level L is visited and level L has no children. */
  lemma QueueEmpty(levels: seq<seq<Node>>, L: nat, i: nat)
    requires L < |levels| && i <= |levels[L]| && QueueAt(levels, L, i, [])
    ensures i == |levels[L]| && Children(levels[L]) == []
  {
    assert |levels[L][i..]| == 0;
    assert levels[L][..i] == levels[L];
  }
}

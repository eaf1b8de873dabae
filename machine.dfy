/** The automaton object: its double array, failure table and output lists,
    the construction that fills them in, and the streaming search over them. */
module AhoCorasick {
  import opened Darts
  import opened Automaton
  import opened Construction
  import opened Search

  datatype Option<T> = None | Some(value: T)

  /** What the trie library's build hands back: its tables, or its error. */
  datatype Result<T> = Success(value: T) | Failure(error: string)

  class Machine {
    var trie: DoubleArray
    var failure: array<int>
    var output: map<int, seq<Word>>
    /** The depth of every keyword state of the trie (the root is not one). */
    ghost var depth: map<int, nat>
    /** The keyword the trie records as ending at each state. */
    ghost var completions: map<int, Word>

    /** The tables as values. */
    ghost function Tabs(): Tables
      reads this, failure
    {
      Tables(trie, failure[..], output)
    }

    /** A built machine: one failure link per cell of the double array,
        failure chains that reach the root, and output lists closed along them. */
    ghost predicate Valid()
      reads this, failure
    {
      failure.Length == |trie.base| && Ready(Tabs(), depth) &&
      OutputClosed(failure[..], depth, completions, output)
    }

    /** A machine that has not been built. */
    constructor ()
      ensures trie == DoubleArray([], []) && failure.Length == 0 && output == map[]
    {
      trie := DoubleArray([], []);
      failure := new int[0];
      output := map[];
      depth := map[];
      completions := map[];
    }

    /** f: the failure link of a state.  On a built machine the link of a
        state of the trie is the root or a strictly shallower state. */
    function F(index: int): (state: int)
      reads this, failure
      requires 0 <= index < failure.Length
      ensures Valid() && index in depth ==>
                state == RootState || (state in depth && depth[state] < depth[index])
    {
      failure[index]
    }

    /** setF: records the failure link of a state. */
    method SetF(inState: int, outState: int)
      requires 0 <= inState < failure.Length
      modifies failure
      ensures failure[..] == old(failure[..])[inState := outState]
    {
      failure[inState] := outState;
    }

    /** The retry loop around g: from s, follow failure links while g fails on
        the symbol, then take g.  It ends because every link it follows leads
        to a state of smaller rank, and g never fails from the root. */
    method Follow(s: int, input: int, ghost rank: map<int, nat>) returns (r: int)
      requires trie.Sized() && RootNodeBase == RootState && RootTotal(trie)
      requires Ranked(failure[..], rank) && input >= 0
      requires s == RootState || s in rank
      ensures r == FollowFail(trie, failure[..], rank, s, input)
    {
      var state := s;
      while Goto(trie, state, input) == FailState
        invariant state == RootState || state in rank
        invariant FollowFail(trie, failure[..], rank, state, input) == FollowFail(trie, failure[..], rank, s, input)
        decreases ChainLength(rank, state)
      {
        state := F(state);
      }
      r := Goto(trie, state, input);
    }

    /** A child n of node, not an end marker: it gets the end of node's
        failure chain on its symbol as its failure link, and that state's
        output list, when it has one, is put in front of the child's.  rank
        orders the states linked so far. */
    method LinkChild(node: Node, n: Node, ghost rank: map<int, nat>)
      requires trie.Sized() && RootNodeBase == RootState && RootTotal(trie) && Ranked(failure[..], rank)
      requires 0 <= node.base < failure.Length && (failure[node.base] == RootState || failure[node.base] in rank)
      requires n.code >= RootNodeBase && 0 <= n.base < failure.Length
      modifies this, failure
      ensures trie == old(trie) && failure == old(failure) && depth == old(depth) && completions == old(completions)
      ensures var out := FollowFail(trie, old(failure[..]), rank, old(failure[node.base]), n.code - RootNodeBase);
              failure[..] == old(failure[..])[n.base := out] &&
              output == if out in old(output) then old(output)[n.base := old(output)[out] + Out(old(output), n.base)]
                        else old(output)
    {
      var outState := Follow(F(node.base), n.code - RootNodeBase, rank);
      if outState in output {
        output := output[n.base := output[outState] + Out(output, n.base)];
      }
      SetF(n.base, outState);
    }

    /** One child of the node at the head of the queue (child q of node i of
        level L): an end marker is skipped, any other child is linked. */
    method VisitChild(ghost lib: Library, ghost levels: seq<seq<Node>>, ghost where: map<int, (nat, nat)>,
                      node: Node, n: Node, ghost L: nat, ghost i: nat, ghost q: nat)
      requires WellFormed(lib, levels, where) && 1 <= L < |levels| && i < |levels[L]| && q < |levels[L][i].children|
      requires node == levels[L][i] && n == node.children[q]
      requires trie == lib.trie && failure.Length == |trie.base|
      requires BuildInv(lib, levels, where, failure[..], output, L, i, q)
      modifies this, failure
      ensures trie == old(trie) && failure == old(failure) && depth == old(depth) && completions == old(completions)
      ensures n.base == EndNodeBase ==> failure[..] == old(failure[..]) && output == old(output)
      ensures BuildInv(lib, levels, where, failure[..], output, L, i, q + 1)
    {
      if n.base == EndNodeBase {
        SkipEnd(lib, levels, where, failure[..], output, L, i, q);
        return;
      }
      ghost var fs := failure[..];
      ghost var output0 := output;
      ghost var rank := LinkedRank(where, L, Frontier(levels, L, i, q));
      assert ParentReady(lib, levels, where, fs, L, i, q) && 0 <= n.base < |fs| by {
        LinkTarget(lib, levels, where, fs, output, L, i, q);
        LinkRank(lib, levels, where, L, i, q);
      }
      ghost var out := FollowFail(lib.trie, fs, rank, fs[node.base], n.code - RootNodeBase);
      LinkChild(node, n, rank);
      assert failure[..] == fs[n.base := out];
      assert output == if out in output0 then output0[n.base := output0[out] + Out(output0, n.base)] else output0;
      assert BuildInv(lib, levels, where, failure[..], output, L, i, q + 1) by {
        LinkStep(lib, levels, where, fs, output0, L, i, q, out, failure[..], output);
      }
    }

    /** The children of the node at the head of the queue, in order. */
    method LinkChildren(ghost lib: Library, ghost levels: seq<seq<Node>>, ghost where: map<int, (nat, nat)>,
                        node: Node, ghost L: nat, ghost i: nat)
      requires WellFormed(lib, levels, where) && 1 <= L < |levels| && i < |levels[L]| && node == levels[L][i]
      requires trie == lib.trie && failure.Length == |trie.base|
      requires BuildInv(lib, levels, where, failure[..], output, L, i, 0)
      modifies this, failure
      ensures trie == old(trie) && failure == old(failure) && depth == old(depth) && completions == old(completions)
      ensures BuildInv(lib, levels, where, failure[..], output, L, i + 1, 0)
    {
      var q := 0;
      while q < |node.children|
        invariant q <= |node.children|
        invariant trie == old(trie) && failure == old(failure) && depth == old(depth) && completions == old(completions)
        invariant BuildInv(lib, levels, where, failure[..], output, L, i, q)
      {
        VisitChild(lib, levels, where, node, node.children[q], L, i, q);
        q := q + 1;
      }
      NextNode(lib, levels, where, failure[..], output, L, i);
    }

    /** Every child of the root gets the root's base as its failure link. */
    method LinkRoot(root: Node)
      requires forall j | 0 <= j < |root.children| :: 0 <= root.children[j].base < failure.Length
      modifies failure
      ensures forall j | 0 <= j < |root.children| :: failure[root.children[j].base] == RootNodeBase
      ensures forall x | 0 <= x < failure.Length && x !in set j | 0 <= j < |root.children| :: root.children[j].base ::
                failure[x] == old(failure[x])
    {
      var j := 0;
      while j < |root.children|
        invariant j <= |root.children|
        invariant forall j' | 0 <= j' < j :: failure[root.children[j'].base] == RootNodeBase
        invariant forall x | 0 <= x < failure.Length && x !in set j' | 0 <= j' < j :: root.children[j'].base ::
                    failure[x] == old(failure[x])
      {
        failure[root.children[j].base] := RootNodeBase;
        j := j + 1;
      }
    }

    /** The breadth-first pass: a FIFO queue starting with the root's
        children; each node dequeued has its children linked, and its
        children are enqueued. */
    method LinkAll(ghost lib: Library, ghost levels: seq<seq<Node>>, ghost where: map<int, (nat, nat)>, root: Node)
      requires WellFormed(lib, levels, where) && root == lib.root
      requires trie == lib.trie && failure.Length == |trie.base|
      requires BuildInv(lib, levels, where, failure[..], output, 1, 0, 0)
      modifies this, failure
      ensures trie == old(trie) && failure == old(failure) && depth == old(depth) && completions == old(completions)
      ensures RootTotal(trie) && RootLinks(lib.root, failure[..])
      ensures Ranked(failure[..], Depths(where))
      ensures ChildrenLinked(trie, levels, failure[..], Depths(where), |levels|, 0, 0)
      ensures OutputClosed(failure[..], Depths(where), lib.completions, output)
    {
      LevelOne(root, levels);
      var queue := root.children;
      ghost var L: nat := 1;
      ghost var i: nat := 0;
      assert levels[1][..0] == [] && levels[1][0..] == levels[1];
      while queue != []
        invariant trie == old(trie) && failure == old(failure) && depth == old(depth) && completions == old(completions)
        invariant 1 <= L < |levels| && i <= |levels[L]| && QueueAt(levels, L, i, queue)
        invariant BuildInv(lib, levels, where, failure[..], output, L, i, 0)
        decreases TotalSize(queue)
      {
        L, i := QueueHead(lib, levels, where, failure[..], output, L, i, queue);
        var node := queue[0];
        LinkChildren(lib, levels, where, node, L, i);
        queue := queue + node.children;
        queue := queue[1..];
        i := i + 1;
      }
      Finish(lib, levels, where, failure[..], output, L, i);
    }

    /** Build: refuses an empty keyword list and passes on the library's error;
        otherwise seeds the output lists with the trie's keywords, links the
        root's children to the root, and links every other state breadth-first.
        `levels` and `where` describe the library's trie level by level. */
    method Build(keywords: seq<Word>, built: Result<Library>,
                 ghost levels: seq<seq<Node>>, ghost where: map<int, (nat, nat)>) returns (err: Option<string>)
      requires built.Success? ==> WellFormed(built.value, levels, where)
      modifies this
      ensures keywords == [] ==> err == Some("empty keywords") && unchanged(this)
      ensures keywords != [] && built.Failure? ==>
                err == Some(built.error) && failure == old(failure) && output == old(output)
      ensures keywords != [] && built.Success? ==>
                err == None && fresh(failure) &&
                trie == built.value.trie && depth == Depths(where) && completions == built.value.completions &&
                Valid() &&
                RootLinks(built.value.root, failure[..]) &&
                ChildrenLinked(trie, levels, failure[..], depth, |levels|, 0, 0)
    {
      if |keywords| == 0 {
        return Some("empty keywords");
      }
      if built.Failure? {
        return Some(built.error);
      }
      var lib := built.value;
      trie := lib.trie;
      depth := Depths(where);
      completions := lib.completions;
      output := map s | s in lib.completions :: [lib.completions[s]];
      failure := new int[|trie.base|](_ => 0);
      LinkRoot(lib.root);
      InitInv(lib, levels, where, failure[..], output);
      LinkAll(lib, levels, where, lib.root);
      return None;
    }

    /** One position of the pass over the live threads: each advances on c,
        in order; the result is the threads whose outputs are scanned and the
        live threads of the next position. */
    method StepAll(latest: seq<SearchState>, pos: int, c: char, noncontinueChars: int)
      returns (searchStates: seq<SearchState>, newLatest: seq<SearchState>)
      requires Ready(Tabs(), depth) && Live(depth, latest)
      ensures (searchStates, newLatest) == StepThreads(Tabs(), depth, latest, pos, c, noncontinueChars)
    {
      ghost var a := Tabs();
      searchStates, newLatest := [], [];
      var k := 0;
      while k < |latest|
        invariant k <= |latest| && Live(depth, latest[..k])
        invariant searchStates == StepThreads(a, depth, latest[..k], pos, c, noncontinueChars).0
        invariant newLatest == StepThreads(a, depth, latest[..k], pos, c, noncontinueChars).1
      {
        var advanced, kept := StepThread(latest[k], pos, c, noncontinueChars);
        StepThreadsNext(a, depth, latest, k, pos, c, noncontinueChars, advanced, kept);
        searchStates := searchStates + advanced;
        newLatest := newLatest + advanced + kept;
        k := k + 1;
      }
      assert latest[..k] == latest;
    }

    /** One live thread over symbol c at pos: the state it reaches by following
        failure links, re-emitted if it is not the root, and the thread itself,
        having consumed c, if it is kept for the gap tolerance. */
    method StepThread(t: SearchState, pos: int, c: char, noncontinueChars: int)
      returns (advanced: seq<SearchState>, kept: seq<SearchState>)
      requires Ready(Tabs(), depth) && (t.state == RootState || t.state in depth)
      ensures advanced == Advanced(Tabs(), depth, t, pos, c)
      ensures kept == Kept(t, pos, c, noncontinueChars)
    {
      var state := Follow(t.state, c as int, depth);
      var chars := t.chars + [c];
      advanced, kept := [], [];
      if state != RootState {
        advanced := [SearchState(state, pos, chars)];
      }
      if t.pos < pos && pos - t.pos <= noncontinueChars {
        kept := [SearchState(t.state, t.pos, chars)];
      }
    }

    /** The terms of one scanned thread, word by word; with early return in
        force, only the first of them, and stop. */
    method ReportState(st: SearchState, first: bool) returns (reported: seq<Term>, stop: bool)
      ensures stop <==> first && TermsOf(output, st) != []
      ensures reported == if stop then [TermsOf(output, st)[0]] else TermsOf(output, st)
    {
      reported := [];
      if st.state in output {
        var val := output[st.state];
        var w := 0;
        while w < |val|
          invariant w <= |val|
          invariant reported == TermsOf(output, st)[..w]
          invariant first ==> w == 0
        {
          reported := reported + [Term(st.pos - |st.chars| + 1, val[w])];
          if first {
            return reported, true;
          }
          w := w + 1;
        }
        assert TermsOf(output, st)[..w] == TermsOf(output, st);
      }
      stop := false;
    }

    /** The terms of the scanned threads, thread by thread; with early return
        in force, only the first of them, and stop. */
    method Report(searchStates: seq<SearchState>, first: bool) returns (reported: seq<Term>, stop: bool)
      ensures stop <==> first && Found(output, searchStates) != []
      ensures reported == if stop then [Found(output, searchStates)[0]] else Found(output, searchStates)
    {
      reported := [];
      var e := 0;
      while e < |searchStates|
        invariant e <= |searchStates|
        invariant reported == Found(output, searchStates[..e])
        invariant first ==> reported == []
      {
        FoundStep(output, searchStates, e);
        var terms, done := ReportState(searchStates[e], first);
        if done {
          FoundPrefix(output, searchStates, e + 1);
          return terms, true;
        }
        reported := reported + terms;
        e := e + 1;
      }
      assert searchStates[..e] == searchStates;
      stop := false;
    }

    /** One position of MultiPatternSearch: a fresh root thread joins the
        live threads, all of them step over content[pos], and the outputs of
        the threads scanned are reported; with early return in force (asked
        for, or forced by more than MaxThreads live threads) the pass stops
        at the first term. */
    method SearchAt(content: seq<char>, pos: nat, latest: seq<SearchState>, first: bool, noncontinueChars: int,
                    ghost terms: seq<Term>)
      returns (reported: seq<Term>, stop: bool, newLatest: seq<SearchState>)
      requires Ready(Tabs(), depth) && Live(depth, latest) && pos < |content|
      ensures Live(depth, newLatest)
      ensures stop ==> Emit(TraceFrom(Tabs(), depth, content, pos, latest, noncontinueChars), first, terms) ==
                       terms + reported
      ensures !stop ==> Emit(TraceFrom(Tabs(), depth, content, pos, latest, noncontinueChars), first, terms) ==
                        Emit(TraceFrom(Tabs(), depth, content, pos + 1, newLatest, noncontinueChars),
                             first || |newLatest| > MaxThreads, terms + reported)
    {
      var threads := latest + [SearchState(RootState, pos, [])];
      LiveAppend(depth, latest, [SearchState(RootState, pos, [])]);
      var searchStates;
      searchStates, newLatest := StepAll(threads, pos, content[pos], noncontinueChars);
      reported, stop := Report(searchStates, first || |newLatest| > MaxThreads);
      EmitStep(Tabs(), depth, content, pos, latest, noncontinueChars, first, terms, searchStates, newLatest, reported, stop);
    }

    /** MultiPatternSearch: the terms of one pass over content, as Search
        describes it: every match, position by position, or only the first
        once early return is asked for or forced.  On a built machine every
        word reported is a keyword. */
    method MultiPatternSearch(content: seq<char>, returnImmediately: bool, noncontinueChars: int)
      returns (terms: seq<Term>)
      requires Valid()
      ensures terms == SearchResult(Tabs(), depth, content, returnImmediately, noncontinueChars)
      ensures AllKeywords(terms, completions)
    {
      SearchReportsKeywords(Tabs(), depth, completions, content, returnImmediately, noncontinueChars);
      terms := [];
      var latest: seq<SearchState> := [];
      var first := returnImmediately;
      var pos := 0;
      while pos < |content|
        invariant pos <= |content| && Live(depth, latest)
        invariant Emit(TraceFrom(Tabs(), depth, content, pos, latest, noncontinueChars), first, terms) ==
                  SearchResult(Tabs(), depth, content, returnImmediately, noncontinueChars)
      {
        var reported, stop, newLatest := SearchAt(content, pos, latest, first, noncontinueChars, terms);
        latest := newLatest;
        first := first || |latest| > MaxThreads;
        terms := terms + reported;
        if stop {
          return;
        }
        pos := pos + 1;
      }
    }

    /** ExactSearch: the library's exact lookup of the whole content decides;
        a hit is reported as the content itself at offset 0. */
    method ExactSearch(content: seq<char>, matched: bool) returns (terms: seq<Term>)
      ensures matched ==> terms == [Term(0, content)]
      ensures !matched ==> terms == []
    {
      if matched {
        return [Term(0, content)];
      }
      return [];
    }
  }
}

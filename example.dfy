/** A worked search over a small automaton: the single keyword "a" searched in
    "aaa".  It shows how threads carry their start offset along failure links,
    so the same match is reported again at the offset of every thread that
    reaches it. */
module SearchExample {
  import opened Darts
  import opened Automaton
  import opened Search

  /** The one state of the trie below the root: the end of "a". */
  const A := 2

  /** The double array of the keyword "a" with ROOT_NODE_BASE 1: cell
      1 + 'a' + 1 = 99 belongs to the root and leads to state A. */
  function OneKeyword(): (a: Tables)
    ensures |a.trie.base| == |a.trie.check| == 100
  {
    Tables(DoubleArray(seq(100, i => if i == 99 then A else 0), seq(100, i => if i == 99 then RootState else 0)),
           seq(3, i => RootState), map[A := ["a"]])
  }

  /** State A is one level below the root. */
  function OneDepth(): map<int, nat>
  {
    map[A := 1]
  }

  /** The tables are a complete automaton: only cell 99 belongs to a state,
      and A's failure link is the root. */
  lemma OneKeywordReady()
    requires RootNodeBase == RootState
    ensures Ready(OneKeyword(), OneDepth())
  {
    var a, depth := OneKeyword(), OneDepth();
    forall t | 0 <= t < |a.trie.base| && (a.trie.check[t] == RootState || a.trie.check[t] in depth)
      ensures t == 99
    {
    }
  }

  /** From the root and from A the symbol 'a' leads to A: from A through its
      failure link to the root. */
  lemma AdvanceOnA(s: int)
    requires RootNodeBase == RootState && (s == RootState || s == A)
    ensures Ready(OneKeyword(), OneDepth())
    ensures Advance(OneKeyword(), OneDepth(), s, 'a') == A
  {
    OneKeywordReady();
    var a, depth := OneKeyword(), OneDepth();
    assert Goto(a.trie, RootState, 'a' as int) == A;
    assert Goto(a.trie, A, 'a' as int) == FailState;
  }

  /** An automaton in which the symbol 'a' leads from the root and from A
      to A, and A's output list is the keyword "a" alone. */
  ghost predicate LoopsOnA(a: Tables, depth: map<int, nat>)
  {
    Ready(a, depth) && A in depth && Out(a.output, A) == ["a"] &&
    Advance(a, depth, RootState, 'a') == A && Advance(a, depth, A, 'a') == A
  }

  /** The one-keyword automaton loops on 'a'. */
  lemma OneKeywordLoops()
    requires RootNodeBase == RootState
    ensures LoopsOnA(OneKeyword(), OneDepth())
  {
    AdvanceOnA(RootState);
    AdvanceOnA(A);
  }

  /** n copies of the symbol 'a'. */
  function Rep(n: nat): (r: seq<char>)
    ensures |r| == n && forall k | 0 <= k < n :: r[k] == 'a'
  {
    seq(n, k => 'a')
  }

  /** The threads ts after each consumed 'a' and landed on A at pos. */
  function Moved(ts: seq<SearchState>, pos: int): (r: seq<SearchState>)
    ensures |r| == |ts| && forall k | 0 <= k < |ts| :: r[k] == SearchState(A, pos, ts[k].chars + ['a'])
  {
    seq(|ts|, k requires 0 <= k < |ts| => SearchState(A, pos, ts[k].chars + ['a']))
  }

  /** With no gap tolerance, threads on the root or on A all move to A on 'a',
      in order, and none is kept. */
  lemma {:induction false} StepThreadsOnA(a: Tables, depth: map<int, nat>, ts: seq<SearchState>, pos: int)
    requires LoopsOnA(a, depth)
    requires forall k | 0 <= k < |ts| :: ts[k].state == RootState || ts[k].state == A
    ensures Live(depth, ts)
    ensures StepThreads(a, depth, ts, pos, 'a', 0) == (Moved(ts, pos), Moved(ts, pos))
    decreases |ts|
  {
    if ts != [] {
      var n := |ts| - 1;
      var moved := [SearchState(A, pos, ts[n].chars + ['a'])];
      StepThreadsOnA(a, depth, ts[..n], pos);
      var prev := Moved(ts[..n], pos);
      assert StepThreads(a, depth, ts, pos, 'a', 0) == (prev + moved, prev + moved + []) by {
        StepThreadsNext(a, depth, ts, n, pos, 'a', 0, moved, []);
        assert ts[..n + 1] == ts;
      }
      MovedLast(ts, pos);
    }
  }

  lemma MovedLast(ts: seq<SearchState>, pos: int)
    requires ts != []
    ensures Moved(ts, pos) == Moved(ts[..|ts| - 1], pos) + [SearchState(A, pos, ts[|ts| - 1].chars + ['a'])]
    ensures Moved(ts, pos) + [] == Moved(ts, pos)
  {
  }

  /** The live threads after reading n symbols of a run of 'a's: one per start
      offset 0 .. n-1, in that order, each on state A at position n-1 having
      consumed every symbol since its start. */
  function Threads(n: nat): (r: seq<SearchState>)
    ensures |r| == n && forall k | 0 <= k < n :: r[k] == SearchState(A, n - 1, Rep(n - k))
  {
    seq(n, k requires 0 <= k < n => SearchState(A, n - 1, Rep(n - k)))
  }

  /** The terms found after reading n symbols: "a" once per start offset 0 .. n-1. */
  function Matches(n: nat): (r: seq<Term>)
    ensures |r| == n && forall k | 0 <= k < n :: r[k] == Term(k, "a")
  {
    seq(n, k requires 0 <= k < n => Term(k, "a"))
  }

  /** Position n of a run of 'a's: every live thread follows A's failure link
      back to the root and returns to A, keeping its start offset, and the
      fresh root thread joins them. */
  lemma StepOnRun(a: Tables, depth: map<int, nat>, content: seq<char>, n: nat)
    requires LoopsOnA(a, depth)
    requires n < |content| && content[n] == 'a'
    ensures Live(depth, Threads(n))
    ensures Step(a, depth, content, n, Threads(n), 0) == (Found(a.output, Threads(n + 1)), Threads(n + 1))
  {
    var ts := Threads(n) + [SearchState(RootState, n, [])];
    StepThreadsOnA(a, depth, ts, n);
    StepThreadsOnA(a, depth, Threads(n), n);
    forall k | 0 <= k < n + 1
      ensures Moved(ts, n)[k] == Threads(n + 1)[k]
    {
      if k < n {
        assert Rep(n - k) + ['a'] == Rep(n + 1 - k);
      } else {
        assert [] + ['a'] == Rep(1);
      }
    }
    assert Moved(ts, n) == Threads(n + 1);
  }

  /** Every live thread on A reports "a" once, at its start offset. */
  lemma {:induction false} FoundMatches(output: map<int, seq<Word>>, n: nat)
    requires Out(output, A) == ["a"]
    ensures Found(output, Threads(n)) == Matches(n)
  {
    FoundPrefixMatches(output, n, n);
    assert Threads(n)[..n] == Threads(n);
  }

  /** The first m of n live threads on A report "a" at offsets 0 .. m-1. */
  lemma {:induction false} FoundPrefixMatches(output: map<int, seq<Word>>, n: nat, m: nat)
    requires Out(output, A) == ["a"] && m <= n
    ensures Found(output, Threads(n)[..m]) == Matches(m)
    decreases m
  {
    var t := Threads(n);
    if m == 0 {
      assert t[..0] == [];
    } else {
      FoundPrefixMatches(output, n, m - 1);
      FoundStep(output, t, m - 1);
      assert TermsOf(output, t[m - 1]) == [Term(m - 1, "a")] by {
        assert t[m - 1] == SearchState(A, n - 1, Rep(n - m + 1));
      }
      MatchesStep(m);
    }
  }

  lemma MatchesStep(m: nat)
    requires m >= 1
    ensures Matches(m) == Matches(m - 1) + [Term(m - 1, "a")]
  {
    var r := Matches(m - 1) + [Term(m - 1, "a")];
    assert |r| == m;
    forall k | 0 <= k < m
      ensures Matches(m)[k] == r[k]
    {
    }
  }

  /** The terms of a run of three 'a's, position by position. */
  lemma FlattenRunOfThree()
    ensures Flatten(RunTrace(3)) ==
            [Term(0, "a"), Term(0, "a"), Term(1, "a"), Term(0, "a"), Term(1, "a"), Term(2, "a")]
  {
    var trace := RunTrace(3);
    assert Flatten(trace) == Matches(1) + Flatten(trace[1..]);
    assert Flatten(trace[1..]) == Matches(2) + Flatten(trace[2..]);
    assert Flatten(trace[2..]) == Matches(3) + Flatten(trace[3..]);
    assert Matches(1) == [Term(0, "a")];
    assert Matches(2) == [Term(0, "a"), Term(1, "a")];
    assert Matches(3) == [Term(0, "a"), Term(1, "a"), Term(2, "a")];
  }

  /** What each position of a run of n 'a's produces: at position j, the
      matches of the j + 1 live threads, and j + 1 threads left alive. */
  function RunTrace(n: nat): (r: seq<Outcome>)
    ensures |r| == n && forall j | 0 <= j < n :: r[j] == Outcome(Matches(j + 1), j + 1)
  {
    seq(n, j requires 0 <= j < n => Outcome(Matches(j + 1), j + 1))
  }

  /** The trace of a run of 'a's from position n on. */
  lemma {:induction false} TraceOnRun(a: Tables, depth: map<int, nat>, content: seq<char>, n: nat)
    requires LoopsOnA(a, depth)
    requires n <= |content| && forall k | 0 <= k < |content| :: content[k] == 'a'
    ensures Live(depth, Threads(n))
    ensures TraceFrom(a, depth, content, n, Threads(n), 0) == RunTrace(|content|)[n..]
    decreases |content| - n
  {
    StepThreadsOnA(a, depth, Threads(n), n);
    if n < |content| {
      StepOnRun(a, depth, content, n);
      FoundMatches(a.output, n + 1);
      TraceOnRun(a, depth, content, n + 1);
      var rest := TraceFrom(a, depth, content, n + 1, Threads(n + 1), 0);
      assert TraceFrom(a, depth, content, n, Threads(n), 0) == [Outcome(Matches(n + 1), n + 1)] + rest;
      SliceHead(RunTrace(|content|), n);
    }
  }

  /** A suffix of a sequence is its first element followed by the rest. */
  lemma SliceHead<T>(s: seq<T>, n: nat)
    requires n < |s|
    ensures s[n..] == [s[n]] + s[n + 1..]
  {
  }

  /** The terms found over "aaa", position by position: a thread started at
      offset 0 is still reporting at offset 0 at every later position, and
      every match of "a" is reported once per thread that reaches it. */
  lemma {:induction false} RepeatedMatches()
    requires RootNodeBase == RootState
    ensures Ready(OneKeyword(), OneDepth())
    ensures AllTerms(OneKeyword(), OneDepth(), "aaa", 0) ==
            [Term(0, "a"), Term(0, "a"), Term(1, "a"), Term(0, "a"), Term(1, "a"), Term(2, "a")]
    ensures SearchResult(OneKeyword(), OneDepth(), "aaa", false, 0) == AllTerms(OneKeyword(), OneDepth(), "aaa", 0)
    ensures SearchResult(OneKeyword(), OneDepth(), "aaa", true, 0) == [Term(0, "a")]
  {
    var a, depth, content := OneKeyword(), OneDepth(), "aaa";
    OneKeywordLoops();
    TraceOnRun(a, depth, content, 0);
    assert Threads(0) == [];
    var trace := RunTrace(3);
    assert trace[0..] == trace;
    assert Trace(a, depth, content, 0) == trace;
    FlattenRunOfThree();
    EmitUnforced(trace, []);
    EmitFirstHit(trace, 0, []);
  }
}

/** The streaming multi-pattern search as a function of the built automaton:
    one left-to-right pass that keeps a list of live threads, advances each of
    them through the automaton at every position, and reports the output words
    of every thread that reached a state other than the root. */
module Search {
  import opened Darts
  import opened Automaton

  /** A reported match: its start offset and the keyword. */
  datatype Term = Term(pos: int, word: Word)

  /** A live thread: the automaton state it is in, the position it last
      advanced at, and the symbols it has consumed since it started. */
  datatype SearchState = SearchState(state: int, pos: int, chars: seq<char>)

  /** A built automaton as a value: the double array, the failure table and
      the output lists. */
  datatype Tables = Tables(trie: DoubleArray, failure: seq<int>, output: map<int, seq<Word>>)

  /** The automaton is complete: the double array is closed over the ranked
      states and every ranked state's failure chain reaches the root. */
  ghost predicate Ready(a: Tables, depth: map<int, nat>)
  {
    a.trie.Sized() && RootNodeBase == RootState &&
    Closed(a.trie, depth) && RootTotal(a.trie) && Ranked(a.failure, depth)
  }

  /** A thread sits on the root or on a state of the trie. */
  ghost predicate Live(depth: map<int, nat>, threads: seq<SearchState>)
  {
    forall k | 0 <= k < |threads| :: threads[k].state == RootState || threads[k].state in depth
  }

  /** The state a thread moves to on symbol c. */
  ghost function Advance(a: Tables, depth: map<int, nat>, s: int, c: char): (r: int)
    requires Ready(a, depth) && (s == RootState || s in depth)
    ensures r == RootState || r in depth
  {
    FollowFailLands(a.trie, a.failure, depth, depth, s, c as int);
    FollowFail(a.trie, a.failure, depth, s, c as int)
  }

  /** The thread t advances to on symbol c at pos, unless it falls back to the root. */
  ghost function Advanced(a: Tables, depth: map<int, nat>, t: SearchState, pos: int, c: char): (r: seq<SearchState>)
    requires Ready(a, depth) && (t.state == RootState || t.state in depth)
    ensures Live(depth, r)
  {
    var s := Advance(a, depth, t.state, c);
    if s != RootState then [SearchState(s, pos, t.chars + [c])] else []
  }

  /** Thread t itself, having consumed c, when it did not start at pos and is
      within the gap tolerance. */
  function Kept(t: SearchState, pos: int, c: char, gap: int): (r: seq<SearchState>)
    ensures |r| <= 1
  {
    if t.pos < pos && pos - t.pos <= gap then [SearchState(t.state, t.pos, t.chars + [c])] else []
  }

  /** One position of the pass over the live threads, in order: the threads
      whose outputs are scanned, and the live threads of the next position.
      A thread that advanced to a non-root state is re-emitted with the current
      position; a thread that did not start here and is within the gap
      tolerance is kept on its old state.  Both carry the symbol just consumed. */
  ghost function StepThreads(a: Tables, depth: map<int, nat>, threads: seq<SearchState>,
                             pos: int, c: char, gap: int): (r: (seq<SearchState>, seq<SearchState>))
    requires Ready(a, depth) && Live(depth, threads)
    ensures Live(depth, r.0) && Live(depth, r.1)
    decreases |threads|
  {
    if threads == [] then ([], [])
    else
      var prev := StepThreads(a, depth, threads[..|threads| - 1], pos, c, gap);
      var t := threads[|threads| - 1];
      var advanced := Advanced(a, depth, t, pos, c);
      var kept := Kept(t, pos, c, gap);
      LiveAppend(depth, prev.0, advanced);
      LiveAppend(depth, prev.1, advanced);
      LiveAppend(depth, prev.1 + advanced, kept);
      (prev.0 + advanced, prev.1 + advanced + kept)
  }

  /** Stepping one more thread appends what it contributes: the thread it
      advanced to, if that is not the root, and itself, if it is kept. */
  lemma StepThreadsNext(a: Tables, depth: map<int, nat>, threads: seq<SearchState>, k: nat,
                        pos: int, c: char, gap: int, advanced: seq<SearchState>, kept: seq<SearchState>)
    requires Ready(a, depth) && Live(depth, threads) && k < |threads|
    requires advanced == Advanced(a, depth, threads[k], pos, c)
    requires kept == Kept(threads[k], pos, c, gap)
    ensures Live(depth, threads[..k]) && Live(depth, threads[..k + 1])
    ensures StepThreads(a, depth, threads[..k + 1], pos, c, gap).0 ==
            StepThreads(a, depth, threads[..k], pos, c, gap).0 + advanced
    ensures StepThreads(a, depth, threads[..k + 1], pos, c, gap).1 ==
            StepThreads(a, depth, threads[..k], pos, c, gap).1 + advanced + kept
  {
    assert threads[..k + 1][..k] == threads[..k];
  }

  /** The terms one scanned thread reports, one per word of its state's output list. */
  function TermsOf(output: map<int, seq<Word>>, t: SearchState): (r: seq<Term>)
    ensures |r| == |Out(output, t.state)|
    ensures forall k | 0 <= k < |r| :: r[k] == Term(t.pos - |t.chars| + 1, Out(output, t.state)[k])
  {
    var words := Out(output, t.state);
    seq(|words|, k requires 0 <= k < |words| => Term(t.pos - |t.chars| + 1, words[k]))
  }

  /** The terms a sequence of scanned threads reports, thread by thread. */
  function Found(output: map<int, seq<Word>>, scanned: seq<SearchState>): seq<Term>
  {
    if scanned == [] then [] else Found(output, scanned[..|scanned| - 1]) + TermsOf(output, scanned[|scanned| - 1])
  }

  /** More live threads than this force early return. */
  const MaxThreads := 100

  /** One position of the pass: a fresh root thread joins the live threads,
      all of them step over content[pos]; the result is the terms found at
      this position and the live threads of the next one. */
  ghost function Step(a: Tables, depth: map<int, nat>, content: seq<char>, pos: nat,
                      latest: seq<SearchState>, gap: int): (r: (seq<Term>, seq<SearchState>))
    requires Ready(a, depth) && Live(depth, latest) && pos < |content|
    ensures Live(depth, r.1)
  {
    LiveAppend(depth, latest, [SearchState(RootState, pos, [])]);
    var step := StepThreads(a, depth, latest + [SearchState(RootState, pos, [])], pos, content[pos], gap);
    (Found(a.output, step.0), step.1)
  }

  /** What one position of the pass produces: the terms found there and the
      number of threads left alive for the next position. */
  datatype Outcome = Outcome(found: seq<Term>, alive: nat)

  /** The outcomes of the positions from pos on, given the live threads at pos. */
  ghost function TraceFrom(a: Tables, depth: map<int, nat>, content: seq<char>, pos: nat,
                           latest: seq<SearchState>, gap: int): (r: seq<Outcome>)
    requires Ready(a, depth) && Live(depth, latest) && pos <= |content|
    ensures |r| == |content| - pos
    decreases |content| - pos
  {
    if pos == |content| then []
    else
      var step := Step(a, depth, content, pos, latest, gap);
      [Outcome(step.0, |step.1|)] + TraceFrom(a, depth, content, pos + 1, step.1, gap)
  }

  /** The outcomes of every position of the content. */
  ghost function Trace(a: Tables, depth: map<int, nat>, content: seq<char>, gap: int): seq<Outcome>
    requires Ready(a, depth)
  {
    TraceFrom(a, depth, content, 0, [], gap)
  }

  /** The terms reported over a trace: every term found, position by position,
      until early return is in force (asked for, or forced by more than
      MaxThreads live threads) and a term is found; then that term is the last. */
  function Emit(trace: seq<Outcome>, first: bool, terms: seq<Term>): seq<Term>
  {
    if trace == [] then terms
    else
      var first' := first || trace[0].alive > MaxThreads;
      if first' && trace[0].found != [] then terms + [trace[0].found[0]]
      else Emit(trace[1..], first', terms + trace[0].found)
  }

  /** Every term found over a trace, with no early return. */
  function Flatten(trace: seq<Outcome>): seq<Term>
  {
    if trace == [] then [] else trace[0].found + Flatten(trace[1..])
  }

  /** The result of a search. */
  ghost function SearchResult(a: Tables, depth: map<int, nat>, content: seq<char>, first: bool, gap: int): seq<Term>
    requires Ready(a, depth)
  {
    Emit(Trace(a, depth, content, gap), first, [])
  }

  /** Every term of the full pass, in the order it is discovered. */
  ghost function AllTerms(a: Tables, depth: map<int, nat>, content: seq<char>, gap: int): seq<Term>
    requires Ready(a, depth)
  {
    Flatten(Trace(a, depth, content, gap))
  }

  lemma LiveAppend(depth: map<int, nat>, a: seq<SearchState>, b: seq<SearchState>)
    requires Live(depth, a) && Live(depth, b)
    ensures Live(depth, a + b)
  {
    assert forall k | |a| <= k < |a + b| :: (a + b)[k] == b[k - |a|];
  }

  /** x is a prefix of y. */
  predicate IsPrefix<T(==)>(x: seq<T>, y: seq<T>)
  {
    |x| <= |y| && x == y[..|x|]
  }

  /** Scanning one more thread appends its terms. */
  lemma FoundStep(output: map<int, seq<Word>>, scanned: seq<SearchState>, n: nat)
    requires n < |scanned|
    ensures Found(output, scanned[..n + 1]) == Found(output, scanned[..n]) + TermsOf(output, scanned[n])
  {
    assert scanned[..n + 1][..n] == scanned[..n];
  }

  /** The terms of two runs of scanned threads, one after the other. */
  lemma {:induction false} FoundAppend(output: map<int, seq<Word>>, x: seq<SearchState>, y: seq<SearchState>)
    ensures Found(output, x + y) == Found(output, x) + Found(output, y)
    decreases |y|
  {
    if y == [] {
      assert x + y == x;
    } else {
      var y', last := y[..|y| - 1], y[|y| - 1];
      var xy := x + y;
      assert xy[..|xy| - 1] == x + y' && xy[|xy| - 1] == last;
      calc {
        Found(output, xy);
        Found(output, x + y') + TermsOf(output, last);
        { FoundAppend(output, x, y'); }
        Found(output, x) + Found(output, y') + TermsOf(output, last);
      }
    }
  }

  /** The terms of the first n scanned threads head the terms of all of them. */
  lemma FoundPrefix(output: map<int, seq<Word>>, scanned: seq<SearchState>, n: nat)
    requires n <= |scanned|
    ensures IsPrefix(Found(output, scanned[..n]), Found(output, scanned))
  {
    assert scanned == scanned[..n] + scanned[n..];
    FoundAppend(output, scanned[..n], scanned[n..]);
  }

  /** One position of the reporting pass: from the threads scanned at pos and
      the live threads left for pos + 1, either the pass stops with the first
      term found there, or it goes on at pos + 1 with every term found there
      reported. */
  lemma EmitStep(a: Tables, depth: map<int, nat>, content: seq<char>, pos: nat, latest: seq<SearchState>,
                 gap: int, first: bool, terms: seq<Term>, scanned: seq<SearchState>, next: seq<SearchState>,
                 reported: seq<Term>, stop: bool)
    requires Ready(a, depth) && Live(depth, latest) && pos < |content|
    requires Live(depth, latest + [SearchState(RootState, pos, [])])
    requires (scanned, next) == StepThreads(a, depth, latest + [SearchState(RootState, pos, [])], pos, content[pos], gap)
    requires stop <==> (first || |next| > MaxThreads) && Found(a.output, scanned) != []
    requires reported == if stop then [Found(a.output, scanned)[0]] else Found(a.output, scanned)
    ensures Live(depth, next)
    ensures stop ==> Emit(TraceFrom(a, depth, content, pos, latest, gap), first, terms) == terms + reported
    ensures !stop ==> Emit(TraceFrom(a, depth, content, pos, latest, gap), first, terms) ==
                      Emit(TraceFrom(a, depth, content, pos + 1, next, gap), first || |next| > MaxThreads, terms + reported)
  {
    var step := Step(a, depth, content, pos, latest, gap);
    assert step == (Found(a.output, scanned), next);
  }

  /** The terms already reported stay at the head of the result. */
  lemma {:induction false} EmitKeepsReported(trace: seq<Outcome>, first: bool, terms: seq<Term>)
    ensures Emit(trace, first, terms) == terms + Emit(trace, first, [])
  {
    if trace != [] {
      var first' := first || trace[0].alive > MaxThreads;
      if !(first' && trace[0].found != []) {
        EmitKeepsReported(trace[1..], first', terms + trace[0].found);
        EmitKeepsReported(trace[1..], first', trace[0].found);
        assert [] + trace[0].found == trace[0].found;
      }
    }
  }

  /** The terms reported are a prefix of every term found; with early return
      asked for they are the first term found alone; and they are empty only
      when nothing is found at all. */
  lemma {:induction false} EmitIsPrefix(trace: seq<Outcome>, first: bool)
    ensures var r := Emit(trace, first, []);
      IsPrefix(r, Flatten(trace)) &&
      (first ==> |r| == if Flatten(trace) == [] then 0 else 1) &&
      (Flatten(trace) != [] ==> r != [])
  {
    if trace != [] {
      var first' := first || trace[0].alive > MaxThreads;
      var all := Flatten(trace);
      assert all == trace[0].found + Flatten(trace[1..]);
      if first' && trace[0].found != [] {
        assert Emit(trace, first, []) == [trace[0].found[0]];
      } else {
        var r' := Emit(trace[1..], first', []);
        EmitIsPrefix(trace[1..], first');
        EmitKeepsReported(trace[1..], first', [] + trace[0].found);
        assert Emit(trace, first, []) == trace[0].found + r';
        assert trace[0].found + r' == all[..|trace[0].found + r'|];
      }
    }
  }

  /** Once early return is in force, the result ends with the first term
      found from then on, and no position before it contributes anything. */
  lemma {:induction false} EmitFirstHit(trace: seq<Outcome>, q: nat, terms: seq<Term>)
    requires q < |trace| && trace[q].found != []
    requires forall j | 0 <= j < q :: trace[j].found == []
    ensures Emit(trace, true, terms) == terms + [trace[q].found[0]]
    ensures Flatten(trace[..q]) == []
  {
    if q > 0 {
      EmitFirstHit(trace[1..], q - 1, terms + trace[0].found);
      assert terms + trace[0].found == terms;
      assert trace[..q][1..] == trace[1..][..q - 1];
    }
  }

  /** While early return is neither asked for nor forced, every term found is
      reported, in order. */
  lemma {:induction false} EmitUnforced(trace: seq<Outcome>, terms: seq<Term>)
    requires forall j | 0 <= j < |trace| :: trace[j].alive <= MaxThreads
    ensures Emit(trace, false, terms) == terms + Flatten(trace)
  {
    if trace != [] {
      EmitUnforced(trace[1..], terms + trace[0].found);
    }
  }

  /** Early return forced by the thread limit: when p is the first position
      with more than MaxThreads live threads and q the first position from p on
      where a term is found, the result is every term found before q followed
      by the first term found at q. No term found before the limit is dropped. */
  lemma {:induction false} EmitForced(trace: seq<Outcome>, p: nat, q: nat, terms: seq<Term>)
    requires p <= q < |trace|
    requires forall j | 0 <= j < p :: trace[j].alive <= MaxThreads
    requires trace[p].alive > MaxThreads
    requires forall j | p <= j < q :: trace[j].found == []
    requires trace[q].found != []
    ensures Emit(trace, false, terms) == terms + Flatten(trace[..q]) + [trace[q].found[0]]
  {
    if p == 0 {
      if q > 0 {
        EmitFirstHit(trace[1..], q - 1, terms + trace[0].found);
        assert trace[..q][1..] == trace[1..][..q - 1];
      }
    } else {
      EmitForced(trace[1..], p - 1, q - 1, terms + trace[0].found);
      assert trace[..q][1..] == trace[1..][..q - 1];
    }
  }

  /** The result of a search is a prefix of the full list of matches; it is
      empty only when there is no match at all; and when the caller asks for
      the first match only, it is exactly the first term of the full list. */
  lemma SearchIsPrefixOfAll(a: Tables, depth: map<int, nat>, content: seq<char>, first: bool, gap: int)
    requires Ready(a, depth)
    ensures var r := SearchResult(a, depth, content, first, gap);
      var all := AllTerms(a, depth, content, gap);
      |r| <= |all| && r == all[..|r|] &&
      (r == [] <==> all == []) &&
      (first ==> r == all[..if all == [] then 0 else 1])
  {
    EmitIsPrefix(Trace(a, depth, content, gap), first);
  }

  /** Searching empty content reports nothing. */
  lemma SearchEmpty(a: Tables, depth: map<int, nat>, first: bool, gap: int)
    requires Ready(a, depth)
    ensures SearchResult(a, depth, [], first, gap) == []
    ensures AllTerms(a, depth, [], gap) == []
  {
  }

  /** Every thread scanned at a position is the advance, to a state other
      than the root, of one of the live threads, carrying the symbol just
      read; src[k] is the live thread scanned thread k came from. */
  lemma {:induction false} ScannedAdvanced(a: Tables, depth: map<int, nat>, threads: seq<SearchState>,
                                           pos: int, c: char, gap: int, scanned: seq<SearchState>)
    returns (src: seq<nat>)
    requires Ready(a, depth) && Live(depth, threads)
    requires scanned == StepThreads(a, depth, threads, pos, c, gap).0
    ensures |src| == |scanned|
    ensures forall k | 0 <= k < |scanned| ::
      src[k] < |threads| && scanned[k].state != RootState &&
      scanned[k] == SearchState(Advance(a, depth, threads[src[k]].state, c), pos, threads[src[k]].chars + [c])
    decreases |threads|
  {
    if threads == [] {
      src := [];
    } else {
      var n := |threads| - 1;
      var init := threads[..n];
      assert Live(depth, init);
      var prev := StepThreads(a, depth, init, pos, c, gap).0;
      var from := ScannedAdvanced(a, depth, init, pos, c, gap, prev);
      var advanced := Advanced(a, depth, threads[n], pos, c);
      assert scanned == prev + advanced;
      src := from + seq(|advanced|, _ => n);
      forall k | 0 <= k < |scanned|
        ensures src[k] < |threads| && scanned[k].state != RootState
        ensures scanned[k] == SearchState(Advance(a, depth, threads[src[k]].state, c), pos, threads[src[k]].chars + [c])
      {
        if k < |prev| {
          assert src[k] == from[k] && init[from[k]] == threads[from[k]];
        } else {
          assert scanned[k] == advanced[0] && src[k] == n;
        }
      }
    }
  }

  /** Every term found over scanned threads is one word of one thread's
      output list, placed at that thread's offset pos - |chars| + 1; src[k]
      is the scanned thread term k came from. */
  lemma {:induction false} FoundFrom(output: map<int, seq<Word>>, scanned: seq<SearchState>, found: seq<Term>)
    returns (src: seq<nat>)
    requires found == Found(output, scanned)
    ensures |src| == |found|
    ensures forall k | 0 <= k < |found| ::
      src[k] < |scanned| &&
      found[k].pos == scanned[src[k]].pos - |scanned[src[k]].chars| + 1 &&
      found[k].word in Out(output, scanned[src[k]].state)
    decreases |scanned|
  {
    if scanned == [] {
      src := [];
    } else {
      var n := |scanned| - 1;
      var init := scanned[..n];
      var prev := Found(output, init);
      var from := FoundFrom(output, init, prev);
      var last := TermsOf(output, scanned[n]);
      assert found == prev + last;
      src := from + seq(|last|, _ => n);
      forall k | 0 <= k < |found|
        ensures src[k] < |scanned|
        ensures found[k].pos == scanned[src[k]].pos - |scanned[src[k]].chars| + 1
        ensures found[k].word in Out(output, scanned[src[k]].state)
      {
        if k < |prev| {
          assert src[k] == from[k] && init[from[k]] == scanned[from[k]];
        } else {
          assert found[k] == last[k - |prev|] && src[k] == n;
        }
      }
    }
  }

  /** Every term found at position pos comes from a live thread (or the fresh
      root thread) that advanced at pos to a state other than the root: the
      term is a word of that state's output list, and its offset is pos less
      the number of symbols the thread had consumed before pos; src[k] is the
      thread term k came from. */
  lemma StepTerms(a: Tables, depth: map<int, nat>, content: seq<char>, pos: nat,
                  latest: seq<SearchState>, gap: int, threads: seq<SearchState>, found: seq<Term>)
    returns (src: seq<nat>)
    requires Ready(a, depth) && Live(depth, latest) && pos < |content|
    requires threads == latest + [SearchState(RootState, pos, [])]
    requires found == Step(a, depth, content, pos, latest, gap).0
    ensures Live(depth, threads) && |src| == |found|
    ensures forall k | 0 <= k < |found| ::
      src[k] < |threads| &&
      Advance(a, depth, threads[src[k]].state, content[pos]) != RootState &&
      found[k].pos == pos - |threads[src[k]].chars| &&
      found[k].word in Out(a.output, Advance(a, depth, threads[src[k]].state, content[pos]))
  {
    LiveAppend(depth, latest, [SearchState(RootState, pos, [])]);
    var c := content[pos];
    var scanned := StepThreads(a, depth, threads, pos, c, gap).0;
    assert found == Found(a.output, scanned);
    var origin := ScannedAdvanced(a, depth, threads, pos, c, gap, scanned);
    var term := FoundFrom(a.output, scanned, found);
    src := seq(|found|, k requires 0 <= k < |found| => origin[term[k]]);
  }

  /** Every term's word is a keyword. */
  ghost predicate AllKeywords(ts: seq<Term>, completions: map<int, Word>)
  {
    forall k | 0 <= k < |ts| :: ts[k].word in completions.Values
  }

  lemma AllKeywordsAppend(x: seq<Term>, y: seq<Term>, completions: map<int, Word>)
    requires AllKeywords(x, completions) && AllKeywords(y, completions)
    ensures AllKeywords(x + y, completions)
  {
    assert forall k | |x| <= k < |x + y| :: (x + y)[k] == y[k - |x|];
  }

  /** With closed output lists, a thread on any live state reports keywords only. */
  lemma TermsOfKeywords(a: Tables, depth: map<int, nat>, completions: map<int, Word>, t: SearchState)
    requires Ranked(a.failure, depth) && OutputClosed(a.failure, depth, completions, a.output)
    requires t.state == RootState || t.state in depth
    ensures AllKeywords(TermsOf(a.output, t), completions)
  {
    OutputsAlongChain(a.failure, depth, completions, a.output, t.state);
    forall k | 0 <= k < |TermsOf(a.output, t)|
      ensures TermsOf(a.output, t)[k].word in completions.Values
    {
      ChainOutputsAreKeywords(a.failure, depth, completions, t.state, Out(a.output, t.state)[k]);
    }
  }

  lemma {:induction false} FoundKeywords(a: Tables, depth: map<int, nat>, completions: map<int, Word>,
                                         scanned: seq<SearchState>)
    requires Ready(a, depth) && OutputClosed(a.failure, depth, completions, a.output)
    requires Live(depth, scanned)
    ensures AllKeywords(Found(a.output, scanned), completions)
    decreases |scanned|
  {
    if scanned != [] {
      var n := |scanned| - 1;
      assert Live(depth, scanned[..n]);
      FoundKeywords(a, depth, completions, scanned[..n]);
      TermsOfKeywords(a, depth, completions, scanned[n]);
      AllKeywordsAppend(Found(a.output, scanned[..n]), TermsOf(a.output, scanned[n]), completions);
    }
  }

  lemma StepKeywords(a: Tables, depth: map<int, nat>, completions: map<int, Word>,
                     content: seq<char>, pos: nat, latest: seq<SearchState>, gap: int)
    requires Ready(a, depth) && OutputClosed(a.failure, depth, completions, a.output)
    requires Live(depth, latest) && pos < |content|
    ensures AllKeywords(Step(a, depth, content, pos, latest, gap).0, completions)
  {
    var threads := latest + [SearchState(RootState, pos, [])];
    LiveAppend(depth, latest, [SearchState(RootState, pos, [])]);
    var scanned := StepThreads(a, depth, threads, pos, content[pos], gap).0;
    assert Step(a, depth, content, pos, latest, gap).0 == Found(a.output, scanned);
    FoundKeywords(a, depth, completions, scanned);
  }

  lemma {:induction false} TraceKeywords(a: Tables, depth: map<int, nat>, completions: map<int, Word>,
                                         content: seq<char>, pos: nat, latest: seq<SearchState>, gap: int)
    requires Ready(a, depth) && OutputClosed(a.failure, depth, completions, a.output)
    requires Live(depth, latest) && pos <= |content|
    ensures AllKeywords(Flatten(TraceFrom(a, depth, content, pos, latest, gap)), completions)
    decreases |content| - pos
  {
    if pos < |content| {
      var step := Step(a, depth, content, pos, latest, gap);
      var rest := TraceFrom(a, depth, content, pos + 1, step.1, gap);
      var trace := TraceFrom(a, depth, content, pos, latest, gap);
      assert trace == [Outcome(step.0, |step.1|)] + rest;
      assert trace[0].found == step.0 && trace[1..] == rest;
      StepKeywords(a, depth, completions, content, pos, latest, gap);
      TraceKeywords(a, depth, completions, content, pos + 1, step.1, gap);
      AllKeywordsAppend(step.0, Flatten(rest), completions);
    }
  }

  /** Once the output lists are closed along the failure links, every term a
      search reports is one of the keywords the trie recorded. */
  lemma SearchReportsKeywords(a: Tables, depth: map<int, nat>, completions: map<int, Word>,
                              content: seq<char>, first: bool, gap: int)
    requires Ready(a, depth) && OutputClosed(a.failure, depth, completions, a.output)
    ensures AllKeywords(SearchResult(a, depth, content, first, gap), completions)
  {
    TraceKeywords(a, depth, completions, content, 0, [], gap);
    SearchIsPrefixOfAll(a, depth, content, first, gap);
  }
}

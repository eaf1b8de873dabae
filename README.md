# Aho-Corasick over a double-array trie, in Dafny

This project models the core of the Go package `goahocorasick`, in `ahocorasick.go`:

- **Build** turns the double-array trie that a trie library builds from the keywords into an
  Aho-Corasick automaton. It computes a failure link per state and an output list (the
  keywords recognised) per state.
- **MultiPatternSearch** makes one left-to-right pass over a content, keeping a list of live
  threads. At every position it advances each thread through the goto function `g` and the
  failure function `f`, and reports one term (offset, keyword) per output word of each
  thread that reached a non-root state.

The model is split into six modules:

- `Darts` (darts.dfy): what the automaton needs from the trie library, as plain values.
  This is the double array (`Base`/`Check`), the linked-list trie of nodes
  (`Code`/`Base`/`Children`) and the state → keyword map. `ROOT_NODE_BASE` and
  `END_NODE_BASE` are abstract constants. The module also defines the breadth-first order of
  the trie's nodes, level by level (`Levels`), and the shape of the FIFO queue at every point
  of the pass (`QueueAt`).
- `Automaton` (automaton.dfy): the following pure parts.
  - `g` is `Goto`.
  - The `goto` retry loop of the source, as a function, is `FollowFail`. Its termination
    measure is the rank of the state, because every failure link leads to a state of smaller
    rank and `g` never fails from the root.
  - `OutputClosed` is the equation the output lists satisfy after construction. `ChainOutputs`
    is its closed form.
- `Construction` (construction.dfy) holds the invariant of the breadth-first pass of `Build`
  (`BuildInv`) and one lemma per step of the pass.
- `Search` (search.dfy) specifies the search as a function, `SearchResult`. One position maps
  the live threads to the scanned threads and the next live threads (`StepThreads`). The
  trace of all positions is `TraceFrom`. Reporting, with early return, is `Emit`.
- `SearchExample` (example.dfy) works the search through on a one-keyword automaton, for
  the keyword `a`. It follows the threads over a run of `a`s position by position.
- `AhoCorasick` (machine.dfy) holds the `Machine` class.
  - Its fields are `trie`, `failure` (an `array<int>`, updated in place) and `output` (a
    `map` the methods reassign).
  - Its methods follow the Go code loop for loop, and each is proved against the functions
    above.
  - `Valid()` is the state `Build` establishes. There is one failure link per cell of `Base`,
    the failure chains reach the root, and the output lists are closed along them.

The trie library's build result is an input of `Build`. It is a `Result<Library>`: the tables,
or the library's error. The library itself is not part of this model. Its obligations are
stated as the precondition `WellFormed`:

- `Base` is no longer than `Check`;
- every child of the root has a base that indexes `Base`, since ahocorasick.go:49-51 writes
  its failure cell;
- every child that is not an end marker has a code of at least `ROOT_NODE_BASE`, so the
  symbol `Code - ROOT_NODE_BASE` handed to g (ahocorasick.go:66) is not negative;
- the double array only leads from a state of the trie to a state one level deeper, or to
  the root;
- each state is placed once in the level-by-level order of the linked-list trie;
- end markers are leaves;
- `ROOT_NODE_BASE` is the root state, 1.

The ghost parameters `levels` and `where` describe that placement.

How the Go code behaves, and the model with it:

- Output lists put the inherited words first. A state's list is its failure target's list
  followed by its own keyword (ahocorasick.go:71-77).
- A thread re-emitted after advancing gets the current position as its `Pos`
  (ahocorasick.go:163-164).
- A thread kept for the gap tolerance has already consumed the current symbol
  (ahocorasick.go:161, 166-167).
- A term's offset is `Pos - len(Chars) + 1` of the scanned thread (ahocorasick.go:178).
  Every thread, re-emitted or kept, consumes exactly one symbol per position. Following a
  failure link changes neither its `Chars` nor, in effect, its start (ahocorasick.go:155-167).
  So every term is reported at the position where its thread began as a fresh root thread,
  not where the word itself begins. This holds for words inherited along a failure link, and
  equally for a thread's own keyword reached again after a failure link.
  - `Search.StepTerms` states the offset rule in general.
  - `SearchExample.RepeatedMatches` works it through for the single keyword `a` over `aaa`
    with no gap tolerance. It finds six terms, at offsets 0, 0, 1, 0, 1, 2.

## Model

| member | source | states |
|---|---|---|
| Automaton.Goto | ahocorasick.go:111-132 | g: from FAIL_STATE every symbol leads to ROOT_STATE. With an edge (cell t = s + c + ROOT_NODE_BASE in range, `Check[t] == s`) the result is `Base[t]`. Without one it is ROOT_STATE from the root and FAIL_STATE from any other state. |
| Automaton.RootNeverFails | ahocorasick.go:115-131 | In a closed double array, g from the root never returns FAIL_STATE, for any symbol. |
| Automaton.GotoLands | ahocorasick.go:115-131 | g from the root or a trie state fails, returns to the root, or lands on a state exactly one level deeper. It never fails from the root. |
| Automaton.FollowFail | ahocorasick.go:64-70 | The retry loop around g, following f from s until g stops failing, ends, and never on FAIL_STATE. |
| Automaton.FollowFailFrame | ahocorasick.go:64-78 | Where a failure chain ends depends only on the links of the states on it. Links set later, to other states, do not change it. |
| Automaton.FollowFailLands | ahocorasick.go:64-70 | A failure chain from s ends on the root or on a state at most one level deeper than s. This is why a new link always points to an already-linked state. |
| Automaton.OutputsAlongChain | ahocorasick.go:71-77 | Once the output lists satisfy the local equation, each list is the keywords along the state's failure chain, shallowest first, then its own keyword. |
| Automaton.ChainOutputsAreKeywords | ahocorasick.go:71-77 | Every word collected along a failure chain is a keyword the trie recorded. |
| Darts.QueueStep | ahocorasick.go:80-81 | Dequeuing the head node and enqueuing its children moves the queue one node on in breadth-first order. It leaves strictly fewer nodes to visit. |
| Construction.InitInv | ahocorasick.go:42-52 | Output seeded `idx → [word]`, every root child linked to ROOT_NODE_BASE and the queue holding the root's children: the pass invariant holds at its start. |
| Construction.SkipEnd | ahocorasick.go:61-63 | Skipping an end-marker child keeps the pass invariant. |
| Construction.LinkStep | ahocorasick.go:64-78 | Linking child n of the dequeued node keeps the pass invariant. n's link is the end of the node's failure chain on n's symbol. The failure links still decrease in rank. n's output list becomes its link target's list followed by its own, or stays as it is when the target has no entry. |
| Construction.NextNode | ahocorasick.go:60-79 | Once every child of the dequeued node is handled, the pass invariant stands at the next node. |
| Construction.QueueHead | ahocorasick.go:54-59 | A non-empty queue's head is the next node in level order, moving to the next level once one is done, and the pass invariant stands at it. |
| Construction.Finish | ahocorasick.go:54-57 | When the queue runs empty, every state is linked. The links decrease strictly in depth, every non-end child of every node has its link, and the output lists are closed along the links. |
| AhoCorasick.Machine.F | ahocorasick.go:134-136 | f: the failure link stored for a state. On a built machine, the link of a state of the trie is the root or a strictly shallower state. |
| AhoCorasick.Machine.SetF | ahocorasick.go:138-140 | setF: the failure table changes at inState only, to outState. |
| AhoCorasick.Machine.Follow | ahocorasick.go:64-70 | The retry loop `if g(state, c) == FAIL_STATE { state = f(state); goto ... }; g(state, c)` computes FollowFail and terminates on ranked failure links; the search's retry loop (ahocorasick.go:155-160) is the same. |
| AhoCorasick.Machine.LinkChild | ahocorasick.go:64-78 | For one non-end child, the new failure table is the old one with n's cell set to the end of the chain. The new output map gains `output[out] ++ output[n]` at n exactly when `out` has an entry. |
| AhoCorasick.Machine.VisitChild | ahocorasick.go:60-78 | One child of the dequeued node: an end marker changes nothing; any other child is linked; the pass invariant moves one child on. |
| AhoCorasick.Machine.LinkChildren | ahocorasick.go:59-79 | All children of the dequeued node, in order; the pass invariant moves to the next node. |
| AhoCorasick.Machine.LinkRoot | ahocorasick.go:49-51 | Every root child's cell of the failure table holds ROOT_NODE_BASE; every other cell is unchanged. |
| AhoCorasick.Machine.LinkAll | ahocorasick.go:52-82 | The FIFO pass links every state. The failure links decrease strictly in depth. Every non-end child has the end of its parent's failure chain on its symbol as its link. The output lists are closed along the links. |
| AhoCorasick.Machine.Build | ahocorasick.go:29-85 | Empty keywords: the error "empty keywords" and nothing changes. A library error is passed on and the tables are not touched. Otherwise `failure` is fresh, one cell per cell of Base, and root children are linked to ROOT_NODE_BASE. Every other child is linked to the end of its parent's chain. The machine is `Valid`. |
| AhoCorasick.Machine.StepThread | ahocorasick.go:153-168 | One live thread on symbol c: re-emitted at the current position on the state the failure-following reaches when that is not the root; kept on its old state within the gap tolerance; both having consumed c. |
| AhoCorasick.Machine.StepAll | ahocorasick.go:150-170 | The scanned threads and the next live threads of one position are exactly `StepThreads` of the live threads, in order. |
| AhoCorasick.Machine.ReportState | ahocorasick.go:175-184 | One scanned thread: one term per word of its state's output list, at offset `Pos - len(Chars) + 1`. With early return in force, stop after the first term, and only if there is one. |
| AhoCorasick.Machine.Report | ahocorasick.go:174-186 | All scanned threads in order: every term found at this position. With early return in force, only the first term found, and stop exactly when there is one. |
| AhoCorasick.Machine.SearchAt | ahocorasick.go:150-186 | One position, including the fresh root thread and the forced early return once more than 100 threads are alive. The result either stops the search with its first term, or carries the search on to the next position with every term of this one reported. |
| AhoCorasick.Machine.MultiPatternSearch | ahocorasick.go:142-189 | The terms returned are exactly `SearchResult`. On a built machine every reported word is a keyword. |
| AhoCorasick.Machine.ExactSearch | ahocorasick.go:191-200 | A hit reports the whole content at offset 0; a miss reports nothing. |
| Search.StepThreadsNext | ahocorasick.go:153-168 | Threads are processed in order: one more thread appends its re-emitted thread to the scanned list, and then its kept self to the live list. |
| Search.EmitStep | ahocorasick.go:170-186 | The result from one position on stops on its first term when early return is in force, asked for or forced by more than 100 live threads, and a term is found. Otherwise it continues from the next position with all its terms appended. |
| Search.EmitIsPrefix | ahocorasick.go:170-186 | What is reported is a prefix of every term found. It is empty only when nothing is found. With early return asked for by the caller, it holds exactly one term, or none. |
| Search.EmitUnforced | ahocorasick.go:170-186 | While early return is neither asked for nor forced by more than 100 live threads, every term found is reported, in order. |
| Search.EmitFirstHit | ahocorasick.go:174-183 | Once early return is in force, the result ends with the first term found from then on, and the positions before it found nothing. |
| Search.EmitForced | ahocorasick.go:170-186 | Early return forced by the thread limit: p is the first position with more than 100 live threads, and q is the first position from p on that finds a term. The result is every term found before q, then the first term found at q. No term found before the limit is dropped. |
| Search.SearchIsPrefixOfAll | ahocorasick.go:142-189 | A search's result is a prefix of the full match list, in position, thread and output-list order. It is empty exactly when that list is. With `returnImmediately` it is exactly the first term of the full list. |
| Search.SearchEmpty | ahocorasick.go:147-149 | Searching empty content reports nothing. |
| Search.ScannedAdvanced | ahocorasick.go:160-165 | Every thread scanned at a position is some live thread advanced to a non-root state at the current position, having consumed the symbol. |
| Search.FoundFrom | ahocorasick.go:174-180 | Every term found is a word of one scanned thread's output list, at offset `Pos - len(Chars) + 1` of that thread. |
| Search.StepTerms | ahocorasick.go:152-180 | Every term found at position pos comes from a live or fresh thread that advanced at pos to a non-root state. Its word is in that state's output list. Its offset is pos less the number of symbols the thread had consumed before pos. |
| SearchExample.StepOnRun | ahocorasick.go:152-168 | For a keyword `a` whose state loops back to itself on `a` through its failure link, each position of a run of `a`s keeps one thread per start offset so far. Each thread has consumed every symbol since its start, and the fresh root thread joins them. |
| SearchExample.TraceOnRun | ahocorasick.go:150-186 | Over a run of n `a`s, position j finds `a` once at each offset 0 .. j and leaves j + 1 threads alive. |
| SearchExample.RepeatedMatches | ahocorasick.go:142-189 | For the keyword `a` over `aaa` with no gap tolerance, all terms found are `a` at offsets 0, 0, 1, 0, 1, 2, and the search reports all of them. With `returnImmediately` it reports only the first, at offset 0. |
| Search.SearchReportsKeywords | ahocorasick.go:174-180 | With output lists closed along the failure links, every word a search reports is a keyword the trie recorded. |

## Left out

- `PrintFailure` and `PrintOutput` (ahocorasick.go:87-109) only print, and are not modelled.
- The trie library (`godarts`: `Darts.Build`, the linked-list trie, `d.Output`, `ExactMatchSearch`) is not part of this model.
  - Its build result is an input of `Build`, a `Result<Library>` that either holds the tables or the library's error.
  - What the construction relies on from it is stated as the precondition `WellFormed`.
  - `ROOT_NODE_BASE` and `END_NODE_BASE` are abstract constants. `WellFormed` requires `ROOT_NODE_BASE` to be the root state.
- AhoCorasick.Machine.Build: on a library error the Go code has already overwritten `m.trie` with whatever the library returned. The model leaves `trie` as it was and states nothing about it.
- AhoCorasick.Machine.Build: `keywords` is used only for the emptiness check. The keywords reach the model through the library's result.
- AhoCorasick.Machine.ExactSearch: the library's `ExactMatchSearch` verdict is a parameter. The `nil` result of a miss is the empty sequence.
- AhoCorasick.Machine.MultiPatternSearch: runes are Dafny `char`s, so negative rune values are not modelled. For those the Go code could compute a negative index into `Base`.
- Aliasing and reference identity are not modelled.
  - Go threads share `Chars` backing arrays through `append` (ahocorasick.go:161-167), so a later append can overwrite a symbol another thread sees.
  - The model keeps `Chars` as a value. Only `len(Chars)` is observable, through term offsets, and lengths are not affected by the sharing.
  - `*Term` and `*SearchState` are values.
- An empty keyword is excluded unless `END_NODE_BASE` happens to index `Base`. An empty keyword gives the root an end-marker child, and ahocorasick.go:49-51 writes `failure[END_NODE_BASE]` for it. When the constant is negative or too large, that write panics in Go. `WellFormed` requires every root child's base to index `Base`, so the model does not reach that panic.
- AhoCorasick.Machine.Build: cells of `failure` that belong to no state keep the 0 that `make` gives them (ahocorasick.go:48). The model's body does the same, but the ensures does not state it. No lookup reaches those cells, because g only leads to the root or to states of the trie, and f is only read at those.
- The trie library fills `d.Output` as a map. Its iteration order decides nothing here, because each state gets exactly one entry.


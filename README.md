# CJK dictionary word segmentation (ICU4J `CjkBreakEngine`)

This project models the word-break engine that ICU4J uses for Chinese,
Japanese and Korean text. The repository carries a vendored copy of it. Given
the span `[startPos, endPos)` of a text, `findBreaks` works in four steps:

1. It copies the span and builds the index map `charPositions`. The map takes
   each character position of the (NFKC-normalized) stream to its offset in
   the span.
2. It runs a forward minimum-cost pass over the stream. For every reachable
   position the pass relaxes three kinds of edge:
   - the dictionary's candidate words;
   - a one-character fallback of cost 255 for characters that are not Hangul;
   - one pseudo-word covering a Katakana run, costed from a fixed table.
   The pass fills the cost table `bestSnlp` and the predecessor table `prev`.
3. It backtracks from the end of the stream through `prev` into `t_boundary`.
4. It merges the boundaries, as span offsets, into the caller's stack of
   breaks found so far.

The model has one Dafny module per part:

| module | file | contents |
|---|---|---|
| `Int32` | int32.dfy | Java `int` addition, with its wrap-around |
| `Scripts` | scripts.dfy | the Katakana cost table and Katakana test, the Hangul block, the word sets and `handles` |
| `Utf16` | utf16.dfy | the already-normalized branch of the index map: UTF-16 code point reading and the `charPositions` loop |
| `Segmenter` | segmenter.dfy | candidates, edges and one relaxation, with the forward pass as a function over its state (`Forward`) |
| `ForwardSearch` | segmenter.dfy | the forward pass as the source writes it: loops updating the two arrays in place, each method proved equal to the functional pass |
| `Optimality` | optimality.dfy | what the forward pass computes: Bellman's condition over every relaxation performed, and the first-winner property of `prev` |
| `Backtrack` | backtrack.dfy | the predecessor chain and the loop that writes it into `t_boundary` |
| `Merge` | merge.dfy | the caller's `Stack<Integer>` as a class, the merge loop, and the shape of the merged stack |
| `Engine` | engine.dfy | `findBreaks` end to end |
| `Scenarios` | scenarios.dfy | whole runs whose outcome is known: the one-character fallback everywhere, and a short Katakana run kept whole |

Three modelling choices run through the project:
- The dictionary is a function parameter (a `Matcher`). `MatcherContract`
  states what its answers must look like.
- The normalizer's output is an input, `NormalForm.Renormalized(chars, offsets)`.
  Only the already-normalized branch is computed.
- Source file paths below are relative to the repository root. All line
  numbers refer to `org.openntf.domino/icu4j/com/ibm/icu/text/CjkBreakEngine.java`.

## Model

| member | source | states |
|---|---|---|
| Int32.Add | org.openntf.domino/icu4j/com/ibm/icu/text/CjkBreakEngine.java:158 | Java `int` addition. Always a 32-bit value; exact when the sum fits; the sum minus 2^32 when two ints overflow upwards |
| Scripts.KatakanaCost | org.openntf.domino/icu4j/com/ibm/icu/text/CjkBreakEngine.java:62-65 | The cost lies in 204..8192. It is 8192 exactly for length 0 and for lengths above 8 |
| Scripts.GroupingBeatsFallback | org.openntf.domino/icu4j/com/ibm/icu/text/CjkBreakEngine.java:58-65 | For run lengths 1..19, grouping a Katakana run is cheaper than that many fallback words (n × 255) exactly when the run has 2 to 8 characters |
| Scripts.IsKatakana | org.openntf.domino/icu4j/com/ibm/icu/text/CjkBreakEngine.java:67-70 | `isKatakana`: full-width Katakana U+30A1..U+30FE except the middle dot U+30FB, and half-width Katakana U+FF66..U+FF9F |
| Scripts.IsHangulSyllable | org.openntf.domino/icu4j/com/ibm/icu/text/CjkBreakEngine.java:25-25 | The Hangul word set as its pattern writes it: the syllable block U+AC00..U+D7A3. The fallback test at line 151 consults it |
| Scripts.HangulIsNotKatakana | org.openntf.domino/icu4j/com/ibm/icu/text/CjkBreakEngine.java:25-25 | No code point of the Hangul word set U+AC00..U+D7A3 passes `isKatakana`. `Segmenter.KatakanaHasSingleStep` uses it to give every Katakana character the fallback |
| Scripts.InWordSet | org.openntf.domino/icu4j/com/ibm/icu/text/CjkBreakEngine.java:40-50 | The engine's word set: the Hangul syllables for the Korean engine; otherwise the union of Han, the Katakana word set (Katakana plus U+FF9E and U+FF9F) and Hiragana. The added twelve-character string `\uff70\u30fc` (the Java literal escapes its backslashes) is never a single code point, so it changes no membership |
| Scripts.Handles | org.openntf.domino/icu4j/com/ibm/icu/text/CjkBreakEngine.java:40-56 | True only for word breaks. Korean engine: exactly Hangul syllables. Otherwise: exactly Han, Katakana, Hiragana and U+FF9E/U+FF9F |
| Utf16.CodePointAt | org.openntf.domino/icu4j/com/ibm/icu/text/CjkBreakEngine.java:96 | `codePointAt`: supplementary (≥ 0x10000, ≤ 0x10FFFF) exactly at a well-formed surrogate pair; otherwise the code unit itself |
| Utf16.NextIndex | org.openntf.domino/icu4j/com/ibm/icu/text/CjkBreakEngine.java:97 | Advancing by `charCount` moves forward by at least one unit and stays within the span |
| Utf16.CharCount | org.openntf.domino/icu4j/com/ibm/icu/text/CjkBreakEngine.java:98 | `Character.charCount`: one or two code units, two for a supplementary code point |
| Utf16.RoundTrip | org.openntf.domino/icu4j/com/ibm/icu/text/CjkBreakEngine.java:94-101 | Re-encoding the code points read from a span gives the span back, unpaired surrogates included |
| Utf16.CharPositionsShape | org.openntf.domino/icu4j/com/ibm/icu/text/CjkBreakEngine.java:93-101 | The normalized index map starts at 0 and ends at the span length. It has one entry per code point plus one and grows by each code point's width, so it is strictly increasing. Each code point is read at the boundary before it |
| Utf16.CharPositions | org.openntf.domino/icu4j/com/ibm/icu/text/CjkBreakEngine.java:93-101 | The index map has one entry more than there are code points, and its first entry is 0 |
| Utf16.BuildCharPositions | org.openntf.domino/icu4j/com/ibm/icu/text/CjkBreakEngine.java:93-101 | The loop counts the code points (`numChars`) and fills exactly the index map `CharPositions` |
| Segmenter.MaxSearchLength | org.openntf.domino/icu4j/com/ibm/icu/text/CjkBreakEngine.java:141 | The lookahead is 1..20, never runs past the stream, and is 20 unless it reaches the end |
| Segmenter.RoomForFallback | org.openntf.domino/icu4j/com/ibm/icu/text/CjkBreakEngine.java:151-155 | When the fallback fires, the dictionary returned fewer than `maxSearchLength` words, so `values[count]` is in bounds |
| Segmenter.NeedsFallback | org.openntf.domino/icu4j/com/ibm/icu/text/CjkBreakEngine.java:151 | The fallback condition: no dictionary word, or a first word not one character long, and the character is not a Hangul syllable |
| Segmenter.Candidates | org.openntf.domino/icu4j/com/ibm/icu/text/CjkBreakEngine.java:141-155 | The dictionary's answer comes first, unchanged. Exactly one `(1, 255)` is appended, and only when there is no candidate or the first is not one character long, and the character is not Hangul. Every non-Hangul position has a one-character candidate |
| Segmenter.KatakanaHasSingleStep | org.openntf.domino/icu4j/com/ibm/icu/text/CjkBreakEngine.java:151-155 | A Katakana character always gets a one-character candidate, so an edge to the next position. When the dictionary's first word is not one character long, the candidates are its answer followed by exactly `(1, 255)` |
| Segmenter.DictionaryEdges | org.openntf.domino/icu4j/com/ibm/icu/text/CjkBreakEngine.java:157-160 | One edge per candidate, landing strictly after i and at most at `numChars`, with a non-negative int cost |
| Segmenter.RunScan | org.openntf.domino/icu4j/com/ibm/icu/text/CjkBreakEngine.java:175-179 | The scan passes only Katakana. It stops at the end of the stream, at the 20-character cap, or at the first non-Katakana character |
| Segmenter.KatakanaEdges | org.openntf.domino/icu4j/com/ibm/icu/text/CjkBreakEngine.java:172-187 | The run edge exists exactly where a run starts (the previous flag is false and this character is Katakana) and the run is under 20 characters. It covers exactly the maximal run, lands at most at `numChars` and costs `getKatakanaCost(j - i)` |
| Segmenter.Edges | org.openntf.domino/icu4j/com/ibm/icu/text/CjkBreakEngine.java:157-187 | Every edge tried from i lands in (i, numChars] with a non-negative int cost |
| Segmenter.Relax | org.openntf.domino/icu4j/com/ibm/icu/text/CjkBreakEngine.java:157-163 | Only the target changes. Its cost never rises. A strictly cheaper (wrapped) offer sets cost and `prev := i`; any other offer, a tie included, changes nothing. The table invariant `Linked` is preserved |
| Segmenter.RelaxAll | org.openntf.domino/icu4j/com/ibm/icu/text/CjkBreakEngine.java:157-163 | Relaxing a batch leaves positions ≤ i alone, never raises a cost, and preserves `Linked` |
| Segmenter.RelaxAllAppend | org.openntf.domino/icu4j/com/ibm/icu/text/CjkBreakEngine.java:157-187 | Relaxing the dictionary batch and then the Katakana edge is relaxing their concatenation |
| Segmenter.PrevKatakana | org.openntf.domino/icu4j/com/ibm/icu/text/CjkBreakEngine.java:134-188 | `is_prev_katakana` before position i: updated only at positions that are not skipped at lines 137-139, so it is the test of the last reachable earlier position |
| Segmenter.PrevKatakanaLastReached | org.openntf.domino/icu4j/com/ibm/icu/text/CjkBreakEngine.java:137-188 | `is_prev_katakana` at i holds exactly when some reachable position k < i is Katakana and every position strictly between k and i is unreachable |
| Segmenter.InitialTable | org.openntf.domino/icu4j/com/ibm/icu/text/CjkBreakEngine.java:119-128 | `bestSnlp[0] == 0`, every other cost is the sentinel, every `prev` is -1, and `Linked` holds |
| Segmenter.Step | org.openntf.domino/icu4j/com/ibm/icu/text/CjkBreakEngine.java:135-188 | One iteration keeps positions ≤ i, never raises a cost, and preserves `Linked` |
| Segmenter.Forward | org.openntf.domino/icu4j/com/ibm/icu/text/CjkBreakEngine.java:119-189 | After any prefix of the pass the tables are sized. Position 0 costs 0; a position has a predecessor exactly when it is reachable, and that predecessor is an earlier reachable position. `is_prev_katakana` is the test of the last *reachable* earlier position |
| ForwardSearch.InitTables | org.openntf.domino/icu4j/com/ibm/icu/text/CjkBreakEngine.java:119-128 | The two initialization loops leave the arrays equal to `InitialTable` |
| ForwardSearch.RelaxCandidates | org.openntf.domino/icu4j/com/ibm/icu/text/CjkBreakEngine.java:157-163 | The in-place loop over `lengths`/`values` leaves the arrays equal to `RelaxAll` of the candidates' edges |
| ForwardSearch.RelaxKatakanaRun | org.openntf.domino/icu4j/com/ibm/icu/text/CjkBreakEngine.java:172-187 | The run scan and its update leave the arrays equal to relaxing `KatakanaEdges` |
| ForwardSearch.RelaxDictionary | org.openntf.domino/icu4j/com/ibm/icu/text/CjkBreakEngine.java:141-163 | Querying, appending the fallback and relaxing leave the arrays equal to relaxing `DictionaryEdges` |
| ForwardSearch.ProcessPosition | org.openntf.domino/icu4j/com/ibm/icu/text/CjkBreakEngine.java:135-188 | One loop iteration, including the `continue` at unreachable positions and the flag update, is `Step` |
| ForwardSearch.ForwardPass | org.openntf.domino/icu4j/com/ibm/icu/text/CjkBreakEngine.java:119-189 | The whole imperative pass yields exactly the tables of `Forward` |
| Optimality.TrialsInOrder | org.openntf.domino/icu4j/com/ibm/icu/text/CjkBreakEngine.java:135-189 | The pass relaxes from positions in non-decreasing order, all before the current position |
| Optimality.ForwardIsRelaxTrials | org.openntf.domino/icu4j/com/ibm/icu/text/CjkBreakEngine.java:135-189 | The tables of the pass are its recorded relaxations applied, in order, to the initial tables |
| Optimality.RelaxTrialsOptimal | org.openntf.domino/icu4j/com/ibm/icu/text/CjkBreakEngine.java:157-186 | Relaxations whose sources come in order end in tables where no relaxation offers less than its target holds. Each set predecessor is the source of the first relaxation that reached the final cost |
| Optimality.ForwardOptimal | org.openntf.domino/icu4j/com/ibm/icu/text/CjkBreakEngine.java:119-189 | For the whole pass: `bestSnlp` is a fixed point of every edge tried (no edge offers less), and every `prev[k]` is the source of the earliest-tried edge that reached `bestSnlp[k]`, so the earlier candidate wins ties |
| Backtrack.Chain | org.openntf.domino/icu4j/com/ibm/icu/text/CjkBreakEngine.java:197-200 | The chain from k has at most k entries, is empty exactly at 0, and starts at k. Its entries are reachable positions in 1..k, and the last has predecessor 0 (the `Assert.assrt`) |
| Backtrack.ChainLinks | org.openntf.domino/icu4j/com/ibm/icu/text/CjkBreakEngine.java:197-200 | Each entry after the first is `prev` of the entry before it |
| Backtrack.ChainDecreasing | org.openntf.domino/icu4j/com/ibm/icu/text/CjkBreakEngine.java:197-200 | The collected positions are strictly decreasing |
| Backtrack.Boundaries | org.openntf.domino/icu4j/com/ibm/icu/text/CjkBreakEngine.java:191-202 | All boundaries lie in 0..numChars |
| Backtrack.ChainLinksWon | org.openntf.domino/icu4j/com/ibm/icu/text/CjkBreakEngine.java:191-202 | When the end is reachable, every link of the backtracked chain was made by the winning relaxation of its target |
| Backtrack.WalkIsChain | org.openntf.domino/icu4j/com/ibm/icu/text/CjkBreakEngine.java:197-201 | A walk from k that follows `prev` and stops at a position whose predecessor is 0 is the chain from k |
| Backtrack.WalkChain | org.openntf.domino/icu4j/com/ibm/icu/text/CjkBreakEngine.java:196-201 | The loop writes k = numChars first, then `prev` of each entry, stays within `t_boundary`, and ends where `prev` is 0 |
| Backtrack.Collect | org.openntf.domino/icu4j/com/ibm/icu/text/CjkBreakEngine.java:191-202 | `t_boundary[..numBreaks]` is `[numChars]` when the end is unreachable and the chain from `numChars` otherwise, with room left for one more entry |
| Merge.BreakStack.Size | org.openntf.domino/icu4j/com/ibm/icu/text/CjkBreakEngine.java:204 | `size()`: the number of breaks on the stack |
| Merge.BreakStack.IsEmpty | org.openntf.domino/icu4j/com/ibm/icu/text/CjkBreakEngine.java:214 | `empty()`: the stack holds no break |
| Merge.BreakStack.Peek | org.openntf.domino/icu4j/com/ibm/icu/text/CjkBreakEngine.java:204 | `peek()`: the top of a non-empty stack, its last entry |
| Merge.BreakStack.Contains | org.openntf.domino/icu4j/com/ibm/icu/text/CjkBreakEngine.java:210 | `contains(pos)`: pos is somewhere on the stack |
| Merge.BreakStack.Push | org.openntf.domino/icu4j/com/ibm/icu/text/CjkBreakEngine.java:211 | `push` puts the value on top and changes nothing else |
| Merge.BreakStack.Pop | org.openntf.domino/icu4j/com/ibm/icu/text/CjkBreakEngine.java:215 | `pop` returns the top and removes exactly it |
| Merge.PushNew | org.openntf.domino/icu4j/com/ibm/icu/text/CjkBreakEngine.java:208-212 | The stack after offering the offsets in order: each one is pushed unless it is already on the stack or is `startPos` |
| Merge.Injected | org.openntf.domino/icu4j/com/ibm/icu/text/CjkBreakEngine.java:204-205 | `t_boundary` with a 0 appended exactly when the stack is empty or its top lies before `startPos` |
| Merge.DropEnd | org.openntf.domino/icu4j/com/ibm/icu/text/CjkBreakEngine.java:214-215 | At most one entry goes, and only from the top. It goes exactly when the top is `endPos`. If `endPos` is not below the top, it is not on the result |
| Merge.PushOrder | org.openntf.domino/icu4j/com/ibm/icu/text/CjkBreakEngine.java:208-209 | The k-th offset pushed is `charPositions[t_boundary[numBreaks-1-k]] + startPos` |
| Merge.PushNewContents | org.openntf.domino/icu4j/com/ibm/icu/text/CjkBreakEngine.java:208-213 | The old stack stays underneath. A value is on the result exactly when it was already there or is a candidate offset other than `startPos` |
| Merge.PushNewFresh | org.openntf.domino/icu4j/com/ibm/icu/text/CjkBreakEngine.java:210-211 | No pushed value was on the stack before |
| Merge.PushNewDistinct | org.openntf.domino/icu4j/com/ibm/icu/text/CjkBreakEngine.java:210-211 | A stack without repeats keeps none |
| Merge.PushNewIncreasing | org.openntf.domino/icu4j/com/ibm/icu/text/CjkBreakEngine.java:208-213 | Increasing offsets are pushed in increasing order, and everything pushed is one of them |
| Merge.PushStartIsNoOp | org.openntf.domino/icu4j/com/ibm/icu/text/CjkBreakEngine.java:209-210 | Offering `startPos` first changes nothing |
| Merge.InjectionIsNoOp | org.openntf.domino/icu4j/com/ibm/icu/text/CjkBreakEngine.java:204-213 | Since `charPositions[0] == 0`, the injected boundary 0 only offers `startPos`, which is refused. The merge with the injection equals the merge without it |
| Merge.PushNewAllNew | org.openntf.domino/icu4j/com/ibm/icu/text/CjkBreakEngine.java:208-213 | Offsets that are distinct, new to the stack and never `startPos` are all pushed, in order |
| Merge.Merged | org.openntf.domino/icu4j/com/ibm/icu/text/CjkBreakEngine.java:204-215 | The whole merge on values: injection, offering the offsets of `t_boundary` read backwards, then dropping `endPos` from the top |
| Merge.PushBreaks | org.openntf.domino/icu4j/com/ibm/icu/text/CjkBreakEngine.java:208-213 | The in-place loop over `t_boundary` leaves the stack equal to `PushNew` of the offsets in push order |
| Merge.MergeBreaks | org.openntf.domino/icu4j/com/ibm/icu/text/CjkBreakEngine.java:204-215 | Injection, push loop and pop leave the stack equal to `Merged` of the old stack and the boundaries |
| Merge.MergeAppendsInside | org.openntf.domino/icu4j/com/ibm/icu/text/CjkBreakEngine.java:204-215 | Take boundaries that run strictly down from numChars and an index map increasing from 0 to the span length. If the stack lacked `endPos`, the merge keeps the old stack. It adds only offsets strictly inside (startPos, endPos), new to the stack and increasing. `endPos` is pushed and popped again |
| Engine.RangeBreaks | org.openntf.domino/icu4j/com/ibm/icu/text/CjkBreakEngine.java:88-217 | The stack `findBreaks` leaves for one span: the boundaries backtracked from the forward pass over the span's stream, merged into the old stack through the index map |
| Engine.PassText | org.openntf.domino/icu4j/com/ibm/icu/text/CjkBreakEngine.java:88-115 | The stream is non-empty. It is the span's own code points when already normalized, and the normalizer's output otherwise |
| Engine.Positions | org.openntf.domino/icu4j/com/ibm/icu/text/CjkBreakEngine.java:93-115 | The index map has one entry per stream position plus one, and starts at 0 |
| Engine.PositionsShape | org.openntf.domino/icu4j/com/ibm/icu/text/CjkBreakEngine.java:93-115 | The index map rises strictly from 0 to the span length. This holds always when already normalized, and when renormalized if the offsets rise |
| Engine.PassTextReadsRange | org.openntf.domino/icu4j/com/ibm/icu/text/CjkBreakEngine.java:93-101 | In the already-normalized branch, position i of the stream is the code point that starts at offset `charPositions[i]` of the span |
| Engine.CursorRead | org.openntf.domino/icu4j/com/ibm/icu/text/CjkBreakEngine.java:90-136 | What the pass actually reads at position i of the already-normalized branch: the code point at absolute index i of the caller's text. It is a valid code point |
| Engine.CursorMisreadsOffsetRange | org.openntf.domino/icu4j/com/ibm/icu/text/CjkBreakEngine.java:90-136 | Counterexample: span `[1, 2)` of `[U+4E00, U+30A2]`. The pass reads U+4E00, whose Katakana test fails; the stream holds U+30A2, whose test holds |
| Engine.CursorMisreadsAfterPair | org.openntf.domino/icu4j/com/ibm/icu/text/CjkBreakEngine.java:90-136 | Counterexample at `startPos == 0`: after a surrogate pair, index 1 of the text is the pair's low half, not the following Katakana U+30A2 |
| Engine.CopyRange | org.openntf.domino/icu4j/com/ibm/icu/text/CjkBreakEngine.java:79-87 | The copy loop yields exactly the units `startPos..endPos-1` |
| Engine.IndexMap | org.openntf.domino/icu4j/com/ibm/icu/text/CjkBreakEngine.java:88-115 | The branch on normalization yields `PassText` and `Positions` |
| Engine.SegmentRange | org.openntf.domino/icu4j/com/ibm/icu/text/CjkBreakEngine.java:88-217 | Index map, forward pass, backtrack and merge leave the stack equal to `RangeBreaks` |
| Engine.FindBreaks | org.openntf.domino/icu4j/com/ibm/icu/text/CjkBreakEngine.java:72-218 | Always returns 0. Leaves the stack unchanged when `startPos >= endPos`. Otherwise leaves `RangeBreaks` of the span: the backtracked boundaries of the forward pass over the span's stream, merged into the old stack |
| Engine.RangeBreaksAppendInside | org.openntf.domino/icu4j/com/ibm/icu/text/CjkBreakEngine.java:191-217 | For any dictionary satisfying `MatcherContract`: if the stack lacked `endPos` and the index map rises from 0 to the span length (always so when already normalized), the call keeps the old stack. It adds only offsets strictly inside the span, increasing and new. It never leaves `endPos` on top |
| Scenarios.NoWords | org.openntf.domino/icu4j/com/ibm/icu/text/CjkBreakEngine.java:143 | A dictionary that knows no words gives a well-formed (empty) answer |
| Scenarios.OnlyFallbackEdge | org.openntf.domino/icu4j/com/ibm/icu/text/CjkBreakEngine.java:141-187 | No words and no Katakana or Hangul: the only edge tried from a position is the fallback `(i+1, 255)` |
| Scenarios.SingleStepsForward | org.openntf.domino/icu4j/com/ibm/icu/text/CjkBreakEngine.java:133-189 | A plain text and no words: after i positions of the pass, every position up to i costs 255 per character and has the position before as predecessor. Nothing beyond i is reached yet. Stated for streams short enough that 255·n stays below the sentinel 2^31-1, so no sum wraps |
| Scenarios.ChainOfSingleSteps | org.openntf.domino/icu4j/com/ibm/icu/text/CjkBreakEngine.java:197-200 | When every position has the one before as predecessor, the chain from k is k, k-1, ..., 1 |
| Scenarios.FallbackSplitsEverywhere | org.openntf.domino/icu4j/com/ibm/icu/text/CjkBreakEngine.java:119-202 | A plain text of n characters and no words: the end costs 255·n and the backtrack yields n, n-1, ..., 1. Stated for streams with 255·n below 2^31-1, so no sum wraps |
| Scenarios.MergeDescending | org.openntf.domino/icu4j/com/ibm/icu/text/CjkBreakEngine.java:204-215 | Merging n, n-1, ..., 1 into an empty stack gives the offsets of positions 1..n-1, in order. The range end is pushed and popped again |
| Scenarios.FallbackBreaksEveryCharacter | org.openntf.domino/icu4j/com/ibm/icu/text/CjkBreakEngine.java:72-217 | A plain stream and no words on an empty stack: `findBreaks` leaves a break after every character but the last. Stated for streams with 255·n below 2^31-1, so no sum wraps |
| Scenarios.IdentityIndexMap | org.openntf.domino/icu4j/com/ibm/icu/text/CjkBreakEngine.java:93-101 | A normalized span without surrogates is its own stream, and its index map is 0, 1, ..., length |
| Scenarios.FallbackBreaksEveryOffset | org.openntf.domino/icu4j/com/ibm/icu/text/CjkBreakEngine.java:72-217 | A plain normalized span without surrogates and no words: a break at every offset strictly inside the range, in order. Stated for spans with 255·length below 2^31-1, so no sum wraps |
| Scenarios.GroupedFirstEdges | org.openntf.domino/icu4j/com/ibm/icu/text/CjkBreakEngine.java:141-187 | At the start of a run of 2 to 8 Katakana with no words, the pass tries the fallback and then one edge over the whole run at `getKatakanaCost(n)` |
| Scenarios.GroupedForward | org.openntf.domino/icu4j/com/ibm/icu/text/CjkBreakEngine.java:133-189 | An all-Katakana text of 2 to 8 characters and no words: the run edge reaches the end at the grouped cost. Inside the run only fallback edges are tried, since the previous character is Katakana, and none of them undercuts the run edge |
| Scenarios.KatakanaRunIsOneWord | org.openntf.domino/icu4j/com/ibm/icu/text/CjkBreakEngine.java:119-202 | The same text ends at `getKatakanaCost(n)`, which is below 255·n. The backtrack yields the end alone: the run is one word |
| Scenarios.MergeEndAlone | org.openntf.domino/icu4j/com/ibm/icu/text/CjkBreakEngine.java:204-215 | Merging the end alone into an empty stack leaves it empty |
| Scenarios.KatakanaRunHasNoInnerBreak | org.openntf.domino/icu4j/com/ibm/icu/text/CjkBreakEngine.java:72-217 | A stream that is a run of 2 to 8 Katakana, with no words, on an empty stack: `findBreaks` adds no break |

## Left out

- The NFKC normalizer is an input. This covers `Normalizer.quickCheck`, `isNormalized` and `normalize`, and the walk of `Normalizer.next`/`getIndex` (lines 89-90, 103-114). `NormalForm.Renormalized` supplies the normalized code points and the offsets the walk reports.
- Nothing proves that the renormalized offsets increase. `Engine.RangeBreaksAppendInside` and the scenarios in `Scenarios` require it for that branch.
- `UnicodeSet` pattern building and freezing (lines 20-35, 45-49) is left out. The Han, Katakana and Hiragana properties are given predicates (`Scripts.ScriptSets`). The Hangul set is written out from its pattern.
- Loading the dictionary (line 41, which may throw `IOException`) is not part of this model.
- The `DictionaryMatcher` implementation is not part of this model. `fDictionary.matches` (line 143) is the function parameter `Matcher`.
- Segmenter.MatcherContract: requires the matcher to list words with distinct lengths, shortest first. A matcher could in principle answer in any order. The code depends on this order in two ways. It tests only `lengths[0]` for a one-character word, so an unordered answer with its one-character word further back also gets the fallback `(1, 255)`, a second one-character candidate. And `values` and `lengths` have `numChars` slots (lines 131-132): an unordered answer of `maxSearchLength` words without a one-character word first makes the fallback write `values[maxSearchLength]`, which is out of bounds exactly when i == 0 and `numChars` <= 20. The contract states the order the code needs.
- `CharacterIterator` plumbing is replaced by direct indexing of the stream. This includes `setIndex`, `current32`, `next32`, the `DONE32` test, and the final `inText.setIndex(foundBreaks.peek())` (lines 78, 136, 151, 170-177, 216-217).
  - The model's fallback test (`Segmenter.NeedsFallback`) reads the character at position i. The source's line 151 reads `current32(text)` wherever `fDictionary.matches(text, …)` at line 143 left the iterator, and only line 170 moves it back to i. If `matches` advances the iterator, line 151 tests a later character, and at the last position it can see `DONE32` and skip the fallback. The model does not capture that; `Scenarios.FallbackBreaksEveryCharacter` and `Scenarios.FallbackBreaksEveryOffset` hold for the model's reading, in which `matches` leaves the iterator at i.
  - The final cursor position is not modelled.
- `Assert.assrt` (line 201) is not a runtime check here. `Backtrack.Chain` and `Backtrack.WalkChain` prove it holds.
- A stream with no characters is excluded (`WellFormed` requires at least one normalized character). Such a stream arises only when the normalizer returns nothing for a non-empty span. The source would then read `t_boundary[-1]` and throw.
- Engine.FindBreaks: requires `0 <= startPos` and `endPos` within the text for a non-empty span. The source's copy loop would otherwise throw or never end.
- `reverse` and `breakType` are accepted by `FindBreaks` but never read, as in the source.
- The other files of the repository (`OpenntfDominoImplicitObjectFactory.java`, `ACLEntry.java`, `DecimalType.java`) are not part of this model.

`kint32max` is an ordinary `int`, not a saturating +∞:
- The code adds with plain Java `int` arithmetic (`Int32.Add`, with wrap-around).
- Unreachable positions are skipped (`Step`), so the sentinel is never added to.
- A reachable cost plus a large dictionary cost can still wrap. The model keeps that.

## Findings

| source | as written | input that shows it | evidently intended | confidence | as-written member | corrected member |
|---|---|---|---|---|---|---|
| org.openntf.domino/icu4j/com/ibm/icu/text/CjkBreakEngine.java:90-136 | In the already-normalized branch `text` is the caller's iterator. The pass positions it with `setIndex(i)`, where i is a character index of the span, so it reads absolute index i of the whole text | text `[U+4E00, U+30A2]`, span `[1, 2)`: position 0 should be U+30A2 (Katakana) but U+4E00 is read. Text `[U+D840, U+DC00, U+30A2]`, span `[0, 3)`: position 1 should be U+30A2 but the low surrogate U+DC00 is read | position i of the pass reads the code point at offset `charPositions[i]` of the span | medium; not executed | Engine.CursorRead (Engine.CursorMisreadsOffsetRange, Engine.CursorMisreadsAfterPair) | Engine.PassText (Engine.PassTextReadsRange) |

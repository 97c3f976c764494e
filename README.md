# Word count: a verified model of the sequential and OpenMP counters

The repository has two command-line word counters, `src/wordcount_seq.cpp` and
`src/wordcount_omp.cpp`. Each reads a text file line by line. It normalises
every line, splits the result into tokens at spaces, and counts the tokens in
a hash map from word to count. It then prints the total number of tokens, the
number of distinct words, and the top k words. The ranking is by count,
highest first, with ties broken by the word in ascending order.

- **Normaliser.** `normalize_token` trims the line to its first and last ASCII
  letter or digit. It lowercases letters. Every character other than a letter,
  digit or apostrophe becomes a space. Runs of separators collapse into one
  space, and an apostrophe is kept only between a letter or digit on each side.
- **Sequential program.** It splits each normalised line in place and increments
  `counts[token]` and the token total as it goes.
- **Parallel program.** It tokenises every line with `tokenize_line`. OpenMP
  hands the lines to the threads; each thread counts the tokens of its lines in
  a private map and adds its token count to the shared total. The private maps
  are then merged into one global map.

The model is written in Dafny, one module per concern:

| file | module | models |
|---|---|---|
| `text.dfy` | `Text` | `is_word_char`, `tolower`, the alphabet of normalised text |
| `normalizer.dfy` | `Normalizer` | `normalize_token`: specification functions, shape and idempotence lemmas, and the three loops as methods |
| `normalform.dfy` | `NormalForm` | a second description of `normalize_token`'s result, read off the raw line, proved equal to it |
| `tokenizer.dfy` | `Tokenizer` | the split-on-spaces loop (in `count_words_streaming` and `tokenize_line`) |
| `countmaps.dfy` | `CountMaps` | counting maps: increment, tally of a token sequence, merge, sums |
| `sequential.dfy` | `SequentialCount` | `count_words_streaming` |
| `parallel.dfy` | `ParallelCount` | `count_words_parallel` for any assignment of lines to threads |
| `ranking.dfy` | `Ranking` | `print_top_k`: collecting the entries, the sort, the limit |
| `report.dfy` | `Report` | the summary both `main`s print |
| `scenarios.dfy` | `Scenarios` | concrete inputs and their results |

How the code is modelled:

- Each loop of the source is a `method` with a loop. Its invariants tie the
  loop's state to a specification function. The methods include the two
  passes of `normalize_token`, the splitter, the counting loops, each worker's
  loop, the merge, the fill of the entry vector and the sort.
- The properties the programs promise are lemmas about those functions.
- Strings are `seq<char>`, one char per byte.
- The file's lines are a parameter, `lines: seq<string>`.
- The OpenMP schedule is a parameter `owner`. Any sequence that gives every
  line one of the `nthreads` workers is allowed.

The main result is `ParallelCount.MergedIsSequential`. For every schedule,
merging the workers' private maps gives exactly the map that counting the
whole token stream in order gives. From it, `ParallelCount.CountWordsParallel`
and `SequentialCount.CountWordsStreaming` have the same postcondition. Both
return `Tally(Stream(lines))`, and the total is the length of the stream.
`Ranking.TopKUnique` shows that the ranked top k is determined by the map and k.
`Report.SummaryUnique` then shows that the whole summary is determined by the
lines and k, so the two programs print the same summary.

`NormalForm.NormalizeIsReference` pins down what `normalize_token` returns, independently of its two passes. The result holds the line's letters and digits, lowercased and in order. Between two consecutive ones it holds an apostrophe when a single apostrophe stands between them in the line. It holds one space when anything other than apostrophes stands between them, and nothing otherwise. So each letter or digit comes through (`NormalForm.NormalizeKeepsWordChars`), and so does the placement of every space and apostrophe.

The normalisation code appears twice, once in each file, and the two copies are the same apart from comments. It is modelled once. Rows citing `src/wordcount_seq.cpp` also cover the copy in `src/wordcount_omp.cpp`, and one row cites that copy directly.

The comment at `src/wordcount_seq.cpp:63` keeps an apostrophe "only if surrounded by alnum on both sides". The code reads both sides as the neighbours of the apostrophe in the trimmed, mapped string `out`, not as the last char pushed to `cleaned`. The left side is the `prev_alnum` flag (`src/wordcount_seq.cpp:64`). Every apostrophe clears that flag, kept or not, so it records whether `out[k - 1]` is a letter or digit. The right side is `out[k + 1]` (`src/wordcount_seq.cpp:65`). So in a doubled apostrophe neither one has a letter or digit on both sides, and `"a''b"` gives `"ab"`. `Normalizer.Emitted` tests `out[k - 1]` and `out[k + 1]` in the same way, and `Scenarios.DoubleApostrophe` proves the `"ab"` result.

## Model

| member | source | states |
|---|---|---|
| Text.IsWordChar | src/wordcount_seq.cpp:9-12 | is_word_char holds only for ASCII chars, never for a space, an apostrophe or a hyphen. So every separator the normaliser meets is told apart from the word chars. |
| Text.ToLower | src/wordcount_seq.cpp:39 | tolower keeps the letter-or-digit class of a char. A letter or digit becomes a lowercase letter or a digit. Anything that is not an uppercase letter is unchanged. |
| Normalizer.SkipLeading | src/wordcount_seq.cpp:24-27 | The first scan stops at the first letter or digit, or at the end of the line. Everything it skipped is a separator. |
| Normalizer.SkipTrailing | src/wordcount_seq.cpp:28-29 | The backward scan starts from a letter or digit at i. It stops at the last letter or digit at or after i, and everything after that position is a separator. |
| Normalizer.MapChar | src/wordcount_seq.cpp:36-45 | The per-char mapping yields only lowercase letters, digits, apostrophes or spaces. It keeps the letter-or-digit class and apostrophes, and lowercases letters. |
| Normalizer.MapRangeAt | src/wordcount_seq.cpp:31-46 | Char q of the first pass's output is the mapping of char i+q of the line. |
| Normalizer.Intermediate | src/wordcount_seq.cpp:21-46 | The first pass's output is no longer than the line and uses only the normalised alphabet. When non-empty, it starts and ends with a letter or digit. It is empty exactly when the line has no letter or digit. |
| Normalizer.Emitted | src/wordcount_seq.cpp:55-76 | One step of the collapsing loop appends at most one char. It appends a letter or digit exactly when the char it looks at is one. |
| Normalizer.CollapsePrefix | src/wordcount_seq.cpp:50-77 | After looking at k chars, the collapsing loop has built at most k chars. |
| Normalizer.Normalize | src/wordcount_seq.cpp:18-82 | The normalised line is never longer than the raw line. |
| Normalizer.NormalizeNoWord | src/wordcount_seq.cpp:24-27 | A line without a letter or digit normalises to the empty string. |
| Normalizer.CollapseShape | src/wordcount_seq.cpp:48-77 | Collapsing a first-pass output gives the normalised shape: lowercase letters, digits, apostrophes and spaces. There is no leading or trailing space and no double space, and every apostrophe sits between two letters or digits. |
| Normalizer.NormalizeShape | src/wordcount_omp.cpp:16-72 | Every normalised line has that shape. |
| Normalizer.IntermediateOfNormalized | src/wordcount_seq.cpp:24-46 | On a line already in normalised shape, the trim-and-map pass changes nothing. |
| Normalizer.CollapseOfNormalized | src/wordcount_seq.cpp:53-77 | On such a line, the collapsing loop copies every prefix unchanged. |
| Normalizer.NormalizeFixesNormalized | src/wordcount_seq.cpp:18-82 | Normalising a line of normalised shape returns it unchanged. |
| Normalizer.NormalizeIdempotent | src/wordcount_seq.cpp:18-82 | Normalising twice gives the same result as normalising once. |
| Normalizer.MapSpan | src/wordcount_seq.cpp:31-46 | The mapping loop over the span [i, j] returns the first-pass function of that span. |
| Normalizer.Collapse | src/wordcount_seq.cpp:50-81 | The collapsing loop with its prev_alnum flag returns the collapse function. From a first-pass output, its result has normalised shape. |
| Normalizer.NormalizeToken | src/wordcount_seq.cpp:18-82 | normalize_token returns Normalize of its argument, and the result has normalised shape. |
| NormalForm.LastWordBefore | src/wordcount_seq.cpp:24-29 | The backward search returns the last letter or digit before q, or -1 when there is none. Nothing between it and q is a letter or digit. |
| NormalForm.CollapseGap | src/wordcount_seq.cpp:53-77 | Across a run of separators between two letters or digits, the collapsing loop appends one space if the run holds a space. It appends one apostrophe if the run is a single apostrophe, and nothing otherwise. |
| NormalForm.GapPartIsGap | src/wordcount_seq.cpp:31-46 | Mapped back through the first pass, that run of separators is a single apostrophe exactly when the line has one there. It holds a space exactly when the line has something other than an apostrophe there. |
| NormalForm.CollapseToNextWord | src/wordcount_seq.cpp:53-77 | From one letter or digit to the next one, the collapsing loop appends the gap between them and then the next letter or digit. |
| NormalForm.CollapseUpTo | src/wordcount_seq.cpp:48-77 | Up to each letter or digit of the span, the collapsing loop has built the reference description of the line up to that char. |
| NormalForm.NormalizeIsReference | src/wordcount_seq.cpp:18-82 | normalize_token returns the reference description on every line: the letters and digits lowercased, a single apostrophe kept between two of them, and one space wherever anything else separated them. |
| NormalForm.WordsUpToWordChars | src/wordcount_seq.cpp:50-77 | The letters and digits of the reference up to s[q] are those of the line up to s[q], lowercased. |
| NormalForm.NormalizeKeepsWordChars | src/wordcount_seq.cpp:14-17 | The letters and digits of the normalised line are exactly those of the raw line, lowercased and in the same order. |
| Tokenizer.WordEnd | src/wordcount_seq.cpp:114-116 | The end scan stops at the first space at or after i, or at the end of the string. Everything it passed is not a space. |
| Tokenizer.SplitTakeWord | src/wordcount_seq.cpp:114-124 | A maximal run of non-space chars is the next token, and splitting continues after it. |
| Tokenizer.SplitFromNonEmpty | src/wordcount_seq.cpp:107-125 | Every token the split yields is non-empty and contains no space. |
| Tokenizer.SplitFromEmpty | src/wordcount_seq.cpp:107-125 | The split yields no token exactly when the rest of the string is all spaces. |
| Tokenizer.SplitTokensShape | src/wordcount_seq.cpp:103-125 | Split a line over the normalised alphabet whose apostrophes are inside words: every part is a token. A token is non-empty, has no space, and has no apostrophe at either end. |
| Tokenizer.JoinSplit | src/wordcount_seq.cpp:103-125 | On a string with no leading, trailing or double space, joining the split tokens with single spaces gives the string back. |
| Tokenizer.NormalizedSplit | src/wordcount_seq.cpp:101-125 | A normalised line splits into tokens, and joining them gives the line back. |
| Tokenizer.LineTokensShape | src/wordcount_omp.cpp:75-97 | Every token tokenize_line returns is a token in that sense. |
| Tokenizer.NoWordNoTokens | src/wordcount_omp.cpp:77-96 | A line without a letter or digit gives no tokens. |
| Tokenizer.SkipSpaces | src/wordcount_omp.cpp:85-88 | The space-skipping loop passes only spaces and stops at a non-space or at the end. Splitting from there gives the same tokens. |
| Tokenizer.ScanWord | src/wordcount_omp.cpp:89-93 | The end-scanning loop stops after a non-empty run of non-spaces. That run is the next token. |
| Tokenizer.SplitLine | src/wordcount_omp.cpp:83-95 | The split loop returns exactly the split of the normalised line. |
| Tokenizer.TokenizeLine | src/wordcount_omp.cpp:75-97 | tokenize_line returns the tokens of the line, each a token in that sense. Joined with single spaces they give the normalised line. |
| CountMaps.IncAt | src/wordcount_omp.cpp:135 | ++local[tok] adds tok to the words if it is missing. It raises tok's count by one and leaves every other count as it was. |
| CountMaps.MergeAt | src/wordcount_omp.cpp:150 | After global[w] += count for every entry, a word is in the merged map when either map has it. Its count there is the sum of its two counts. |
| CountMaps.TallySnoc | src/wordcount_seq.cpp:119-123 | Counting one more token increments that token's count in the map. |
| CountMaps.OccurrencesMultiset | src/wordcount_seq.cpp:121 | The recursive occurrence count of w in a sequence is w's multiplicity in the sequence's multiset. |
| CountMaps.TallyCounts | src/wordcount_seq.cpp:93-127 | The words of the counted map are exactly the tokens seen. Each count is that token's number of occurrences, and every count is positive. |
| CountMaps.TallyPermutation | src/wordcount_omp.cpp:129-138 | Counting two sequences that are permutations of each other gives the same map, so the order of counting does not matter. |
| CountMaps.MergePositive | src/wordcount_omp.cpp:150 | Merging two maps of positive counts gives a map of positive counts. |
| CountMaps.MergeTally | src/wordcount_omp.cpp:145-152 | Merging the counts of a and the counts of b gives the counts of a followed by b. |
| CountMaps.MergeAllPositive | src/wordcount_omp.cpp:145-152 | Merging maps of positive counts in turn gives a map of positive counts. |
| CountMaps.MergeAllSums | src/wordcount_omp.cpp:145-152 | After merging every local map, a word's global count is the sum of its local counts. |
| CountMaps.MergeAllKeys | src/wordcount_omp.cpp:145-152 | A word is in the global map exactly when it is in some local map. |
| CountMaps.SumValuesInc | src/wordcount_seq.cpp:121-122 | One increment raises the sum of all counts by one, in step with the total. |
| CountMaps.TallySum | src/wordcount_seq.cpp:119-123 | The counts of a token sequence sum to its length, so the total equals the sum of the map's values. |
| SequentialCount.StreamTokens | src/wordcount_seq.cpp:119-123 | Every token of the file's stream is a non-empty lowercase word with apostrophes only inside. |
| SequentialCount.StreamCounts | src/wordcount_seq.cpp:93-127 | Each word's count in the counted stream is its number of occurrences in the stream. Every word is a token, and the counts sum to the stream's length. |
| SequentialCount.CountLine | src/wordcount_seq.cpp:103-125 | The split-and-count loop over one normalised line extends the map and the total by that line's tokens. |
| SequentialCount.CountRawLine | src/wordcount_seq.cpp:101-125 | Normalising a raw line and counting its tokens extends the map and the total by the line's tokens. |
| SequentialCount.CountLines | src/wordcount_seq.cpp:96-127 | The loop over the lines returns the counts of the whole token stream and its length. |
| SequentialCount.CountWordsStreaming | src/wordcount_seq.cpp:85-128 | count_words_streaming returns the tally of the stream. Each count is the word's number of occurrences, every key is a token, and the total is the stream's length. |
| ParallelCount.PartitionOccurrences | src/wordcount_omp.cpp:129-138 | Every line has an owner among the workers. So for each word, its occurrences summed over the workers' lines equal its occurrences in the whole stream. |
| ParallelCount.PartitionLength | src/wordcount_omp.cpp:127-141 | The workers' token counts add up to the length of the whole stream. |
| ParallelCount.SumWorkers | src/wordcount_omp.cpp:145-152 | A word's counts summed over the private maps equal its occurrences over all workers' lines. |
| ParallelCount.MergedIsSequential | src/wordcount_omp.cpp:122-154 | For every schedule, merging the workers' private maps equals counting the whole stream sequentially. |
| ParallelCount.AddTokens | src/wordcount_omp.cpp:133-137 | The inner loop adds one line's tokens to the private map and the private total. |
| ParallelCount.CountOwnedLine | src/wordcount_omp.cpp:132-137 | Tokenising line i and adding its tokens extends the private map by that line's tokens. |
| ParallelCount.WorkerCount | src/wordcount_omp.cpp:124-138 | A worker's loop leaves in its private map the counts of exactly the tokens of the lines it owns, in line order. |
| ParallelCount.RunWorkers | src/wordcount_omp.cpp:119-142 | There is one private map per thread, each holding the counts of that thread's lines. The shared total is the sum of the workers' token counts. |
| ParallelCount.MergeInto | src/wordcount_omp.cpp:148-151 | Adding every (word, count) of a local map into the global map gives their merge. |
| ParallelCount.MergeLocals | src/wordcount_omp.cpp:145-152 | The merge loop over the local maps gives all of them merged in turn. |
| ParallelCount.CountWordsParallel | src/wordcount_omp.cpp:100-155 | For every schedule, count_words_parallel returns the same map and total as the sequential program: the tally of the stream and its length. Every word in the map is a token. |
| Ranking.LexLess | src/wordcount_seq.cpp:141 | Only a non-empty string can be greater, and a proper prefix compares less than the longer string. |
| Ranking.Before | src/wordcount_seq.cpp:138-141 | For different counts the comparator puts the higher count first. An entry comes before another only if its count is at least as high. |
| Ranking.LexLessIrreflexive | src/wordcount_seq.cpp:141 | No string compares less than itself. |
| Ranking.LexLessTransitive | src/wordcount_seq.cpp:141 | String comparison is transitive. |
| Ranking.LexLessTotal | src/wordcount_seq.cpp:141 | Of two different strings, one compares less than the other. |
| Ranking.BeforeIrreflexive | src/wordcount_seq.cpp:138-141 | The sort's comparator is irreflexive. |
| Ranking.BeforeTransitive | src/wordcount_seq.cpp:138-141 | The comparator is transitive. |
| Ranking.BeforeTotal | src/wordcount_seq.cpp:138-141 | The comparator orders any two different entries one way or the other, so it is a strict total order. |
| Ranking.TopKShape | src/wordcount_seq.cpp:137-146 | Counts in the printed list do not increase. Equal counts are in ascending word order, and no word is printed twice. With k = 0 nothing is printed. |
| Ranking.TopKUnique | src/wordcount_omp.cpp:158-172 | For given counts and k there is only one top-k list. |
| Ranking.PermutationIsEntryList | src/wordcount_seq.cpp:138-141 | Reordering the entry vector keeps it the map's entries, each once. |
| Ranking.SortedPrefixIsTopK | src/wordcount_seq.cpp:143-146 | The first min(k, size) entries of the sorted vector are the top k. |
| Ranking.EntriesOf | src/wordcount_seq.cpp:132-135 | The loop over the map yields every (word, count) pair of the map exactly once. |
| Ranking.InsertLast | src/wordcount_seq.cpp:138-141 | One insertion step extends the sorted prefix by one entry. It permutes the array and leaves the entries after the prefix where they were. |
| Ranking.SortEntries | src/wordcount_seq.cpp:138-141 | The sort leaves the array ordered by the comparator and a permutation of its old contents. |
| Ranking.TopK | src/wordcount_seq.cpp:130-148 | print_top_k's entries are min(k, size) map entries with their counts, in strict comparator order. Every word left out ranks after every word printed. |
| Report.SequentialSummary | src/wordcount_seq.cpp:165-175 | The sequential program prints the stream's length, its number of distinct tokens and the top k of its counts. |
| Report.ParallelSummary | src/wordcount_omp.cpp:189-198 | The parallel program prints that summary for every schedule. |
| Report.SummaryUnique | src/wordcount_omp.cpp:194-198 | The summary of given lines and k is unique, so the two programs print the same. |
| Scenarios.DontStop | src/wordcount_omp.cpp:75-97 | "Don't stop!!" gives the tokens "don't" and "stop". |
| Scenarios.DoubleApostrophe | src/wordcount_seq.cpp:62-69 | "a''b" normalises to "ab": neither apostrophe has a letter or digit on both sides in the trimmed string. |
| Scenarios.RockNRoll | src/wordcount_seq.cpp:49 | "rock'n'roll" normalises to itself. |
| Scenarios.HelloQuotes | src/wordcount_seq.cpp:49 | "'hello'" normalises to "hello". |
| Scenarios.QuotedLine | src/wordcount_omp.cpp:75-97 | "'a'  b-1" gives the tokens "a", "b" and "1": the quotes are trimmed, the run of spaces collapses and the hyphen separates. |
| Scenarios.EmptyLine | src/wordcount_seq.cpp:21-27 | The empty line gives no tokens. |
| Scenarios.NoWordsSummary | src/wordcount_seq.cpp:165-175 | A file of punctuation only: 0 tokens, 0 distinct words, nothing ranked. |
| Scenarios.TieRanking | src/wordcount_seq.cpp:137-141 | With {"a": 3, "b": 5, "c": 5} and k = 2, the output is ("b", 5) then ("c", 5). |

## Left out

- `main`, the command line and its default of 20 for k are not modelled; k is a parameter.
- Opening the file is not modelled. The file's lines are a parameter, so the `runtime_error` thrown when the file cannot be opened, `getline` and the read-all-lines loop are outside the model.
- Timing with `chrono` and every output stream (`cout`, `cerr`, `setw`) are not modelled. The summary is a value.
- OpenMP thread mechanics are not modelled. `schedule(dynamic, 1000)` becomes an arbitrary owner for each line. `omp_set_num_threads(2)` and `omp_get_max_threads()` become the `nthreads` parameter. The workers run one after another, which gives the same private maps as any interleaving because they share nothing. The `omp atomic` add is modelled as a sum.
- SequentialCount.CountWordsStreaming: does not model the `uint32_t` counts and the `uint64_t` total wrapping around, because counts are unbounded `nat`.
- ParallelCount.CountWordsParallel: does not model the `uint32_t` counts, the `uint64_t` total wrapping around, or `size_t` overflow, because counts are unbounded `nat`.
- The "C" locale is assumed: `isalnum` and `tolower` hold only for ASCII letters and digits. Each char is one byte, and string comparison uses char values, as unsigned bytes do.
- `unordered_map` hashing, `reserve` and iteration order are not modelled. The entry vector is filled in an arbitrary order, chosen with `:|`.
- Ranking.SortEntries: `std::sort`'s algorithm is not modelled. It is an insertion sort over an array of entries, and only its result matters, which `Ranking.TopKUnique` shows is unique.
- Ranking.TopK: models the entries `print_top_k` prints, not their formatting.
- Tokenizer.SplitFrom, Tokenizer.Split, CountMaps.Inc and CountMaps.Merge: their contracts are stated as the lemmas `CountMaps.IncAt`, `CountMaps.MergeAt`, `Tokenizer.SplitFromNonEmpty` and `Tokenizer.SplitFromEmpty`. The last two cover `Split` too, since `Split(s)` is `SplitFrom(s, 0)`. Stated on the functions themselves, those contracts are repeated at every use and make the counting proofs too costly for the verifier.
- Scenarios.QuotedLine: stands for the longer line `"'hello'   world-123"`, which gives "hello", "world" and "123" by the same steps. On a literal of that length, checking each step of the second pass costs too much for the verifier.
- The second copy of `normalize_token`, in `src/wordcount_omp.cpp`, is not modelled separately, because it is the same as the first apart from comments.

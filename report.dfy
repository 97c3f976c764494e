/**
 * What main prints after counting, without the command line, the file and
 * the timing: the total number of tokens, the number of distinct words and
 * the top k entries. Both programs print the same summary for the same
 * lines, whatever the schedule of the parallel one.
 */
module Report {
  import opened CountMaps
  import opened SequentialCount
  import opened ParallelCount
  import opened Ranking

  /** "Total tokens", "Unique words" and the lines printed by print_top_k. */
  datatype Summary = Summary(totalTokens: nat, uniqueWords: nat, top: seq<Entry>)

  /** s is the summary of the lines for k: the stream's size, its number of distinct tokens and their ranking. */
  predicate IsSummary(lines: seq<string>, k: nat, s: Summary) {
    && s.totalTokens == |Stream(lines)|
    && s.uniqueWords == |Tally(Stream(lines))|
    && IsTopK(Tally(Stream(lines)), k, s.top)
  }

  /** The summary of the sequential program. */
  method SequentialSummary(lines: seq<string>, k: nat) returns (s: Summary)
    ensures IsSummary(lines, k, s)
  {
    var counts, totalTokens := CountWordsStreaming(lines);
    var top := TopK(counts, k);
    s := Summary(totalTokens, |counts|, top);
  }

  /** The summary of the parallel program for one schedule of its lines. */
  method ParallelSummary(lines: seq<string>, nthreads: nat, owner: seq<nat>, k: nat) returns (s: Summary)
    requires IsSchedule(owner, |lines|, nthreads)
    ensures IsSummary(lines, k, s)
  {
    var counts, totalTokens := CountWordsParallel(lines, nthreads, owner);
    var top := TopK(counts, k);
    s := Summary(totalTokens, |counts|, top);
  }

  /** There is one summary for given lines and k: the two programs print the same. */
  lemma SummaryUnique(lines: seq<string>, k: nat, a: Summary, b: Summary)
    requires IsSummary(lines, k, a) && IsSummary(lines, k, b)
    ensures a == b
  {
    TopKUnique(Tally(Stream(lines)), k, a.top, b.top);
  }
}

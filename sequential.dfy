/**
 * count_words_streaming: every line of the input is normalised and split on
 * spaces, and each token is counted into one map while a running total
 * counts all tokens. The lines are a parameter (the file reading is not
 * modelled); Stream is the reference definition of the token stream.
 */
module SequentialCount {
  import opened Text
  import opened Normalizer
  import opened Tokenizer
  import opened CountMaps

  /** The tokens of the first n lists, one list after another. */
  function Concat<T>(tss: seq<seq<T>>, n: nat): seq<T>
    requires n <= |tss|
  {
    if n == 0 then [] else Concat(tss, n - 1) + tss[n - 1]
  }

  /** The tokens of each line, line by line. */
  function PerLine(lines: seq<string>): (tss: seq<seq<string>>)
    ensures |tss| == |lines|
  {
    if |lines| == 0 then [] else PerLine(lines[..|lines| - 1]) + [LineTokens(lines[|lines| - 1])]
  }

  /** Entry i of PerLine is the tokens of line i. */
  lemma {:induction false} PerLineAt(lines: seq<string>, i: nat)
    requires i < |lines|
    ensures PerLine(lines)[i] == LineTokens(lines[i])
  {
    if i < |lines| - 1 {
      var init := lines[..|lines| - 1];
      PerLineAt(init, i);
      assert init[i] == lines[i];
    }
  }

  /**
   * tss holds the tokens of each line. The trigger keeps this fact from being
   * unfolded into LineTokens except where a line's tokens are asked for.
   */
  predicate TokensOfLines(lines: seq<string>, tss: seq<seq<string>>) {
    && |tss| == |lines|
    && forall i {:trigger LineTokens(lines[i])} :: 0 <= i < |lines| ==> tss[i] == LineTokens(lines[i])
  }

  /** PerLine holds the tokens of each line. */
  lemma PerLineTokens(lines: seq<string>)
    ensures TokensOfLines(lines, PerLine(lines))
  {
    forall i | 0 <= i < |lines| ensures PerLine(lines)[i] == LineTokens(lines[i]) {
      PerLineAt(lines, i);
    }
  }

  /** The tokens of the whole input, in order. */
  function Stream(lines: seq<string>): seq<string> {
    Concat(PerLine(lines), |lines|)
  }

  /** A word of the concatenation is a word of one of the lists. */
  lemma {:induction false} ConcatMember<T>(tss: seq<seq<T>>, n: nat, w: T)
    requires n <= |tss|
    requires w in Concat(tss, n)
    ensures exists i :: 0 <= i < n && w in tss[i]
  {
    if w !in tss[n - 1] {
      ConcatMember(tss, n - 1, w);
    }
  }

  /** Every word of the stream is a token of the shape tokenize_line produces. */
  lemma StreamTokens(lines: seq<string>)
    ensures forall w :: w in Stream(lines) ==> IsToken(w)
  {
    var tss := PerLine(lines);
    forall w | w in Concat(tss, |lines|) ensures IsToken(w) {
      ConcatMember(tss, |lines|, w);
      var i :| 0 <= i < |lines| && w in tss[i];
      PerLineAt(lines, i);
      LineTokensShape(lines[i]);
    }
  }

  /** The counts of the stream: occurrences, keys that are tokens, and values adding up to the number of tokens. */
  lemma StreamCounts(lines: seq<string>)
    ensures forall w :: Get(Tally(Stream(lines)), w) == multiset(Stream(lines))[w]
    ensures forall w :: w in Tally(Stream(lines)) ==> IsToken(w)
    ensures SumValues(Tally(Stream(lines))) == |Stream(lines)|
  {
    TallyCounts(Stream(lines));
    forall w ensures Get(Tally(Stream(lines)), w) == multiset(Stream(lines))[w] {
      OccurrencesMultiset(Stream(lines), w);
    }
    StreamTokens(lines);
    TallySum(Stream(lines));
  }

  /**
   * The scan loop over one normalised line, counting each token it cuts out:
   * the counts and the total go from those of `before` to those of `before`
   * followed by the line's tokens.
   */
  method CountLine(norm: string, ghost before: seq<string>, counts0: CountMap, total0: nat)
    returns (counts: CountMap, total: nat)
    requires counts0 == Tally(before) && total0 == |before|
    ensures counts == Tally(before + Split(norm))
    ensures total == |before + Split(norm)|
  {
    counts, total := counts0, total0;
    ghost var emitted: seq<string> := [];
    assert before + emitted == before;
    ghost var split := Split(norm);
    var len := |norm|;
    var start := 0;
    while start < len
      invariant 0 <= start <= len
      invariant emitted + SplitFrom(norm, start) == split
      invariant counts == Tally(before + emitted) && total == |before| + |emitted|
    {
      start := SkipSpaces(norm, start);
      if start >= len {
        break;
      }
      var end := ScanWord(norm, start);
      if end > start {
        var w := norm[start..end];
        TallyExtend(before, emitted, w);
        EmitNext(emitted, w, SplitFrom(norm, start), SplitFrom(norm, end));
        counts := Inc(counts, w);
        total := total + 1;
        emitted := emitted + [w];
      }
      start := end;
    }
    assert emitted == split;
  }

  /** The body of the line loop: normalise line n, then count its tokens. */
  method CountRawLine(lines: seq<string>, n: nat, ghost before: seq<string>, counts0: CountMap, total0: nat)
    returns (counts: CountMap, total: nat)
    requires n < |lines|
    requires counts0 == Tally(before) && total0 == |before|
    ensures counts == Tally(before + PerLine(lines)[n])
    ensures total == |before + PerLine(lines)[n]|
  {
    var norm := NormalizeToken(lines[n]);
    counts, total := CountLine(norm, before, counts0, total0);
    PerLineAt(lines, n);
  }

  /** The line loop of count_words_streaming: the counts and the total of the whole stream. */
  method CountLines(lines: seq<string>) returns (counts: CountMap, totalTokens: nat)
    ensures counts == Tally(Stream(lines))
    ensures totalTokens == |Stream(lines)|
  {
    counts := map[];
    totalTokens := 0;
    ghost var tss := PerLine(lines);
    ghost var seen: seq<string> := [];
    var n := 0;
    while n < |lines|
      invariant 0 <= n <= |lines|
      invariant seen == Concat(tss, n)
      invariant counts == Tally(seen) && totalTokens == |seen|
    {
      counts, totalTokens := CountRawLine(lines, n, seen, counts, totalTokens);
      seen := seen + tss[n];
      n := n + 1;
    }
  }

  /**
   * count_words_streaming over the lines of a file: the map holds each
   * token's number of occurrences in the whole input, and the total is the
   * number of tokens, which is also the sum of the counts.
   */
  method CountWordsStreaming(lines: seq<string>) returns (counts: CountMap, totalTokens: nat)
    ensures counts == Tally(Stream(lines))
    ensures totalTokens == |Stream(lines)|
    ensures forall w :: Get(counts, w) == multiset(Stream(lines))[w]
    ensures forall w :: w in counts ==> IsToken(w)
    ensures totalTokens == SumValues(counts)
  {
    counts, totalTokens := CountLines(lines);
    StreamCounts(lines);
  }
}

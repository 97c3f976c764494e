/**
 * Concrete cases of the word counters' behaviour: lines with inner, doubled
 * and quoting apostrophes, runs of separators and trailing punctuation, the
 * empty line, an input without any word, and a ranking with a tie broken by
 * the words.
 */
module Scenarios {
  import opened Text
  import opened Normalizer
  import opened Tokenizer
  import opened CountMaps
  import opened SequentialCount
  import opened Ranking
  import opened Report
  import opened NormalForm

  /** The first pass over "Don't stop!!": trimmed to "Don't stop", lowercased. */
  lemma DontStopIntermediate()
    ensures Intermediate("Don't stop!!") == "don't stop"
  {
    var s := "Don't stop!!";
    assert SkipLeading(s, 0) == 0;
    assert SkipTrailing(s, 0, 11) == 9 by {
      assert SkipTrailing(s, 0, 11) == SkipTrailing(s, 0, 10) == SkipTrailing(s, 0, 9);
    }
    MapRangeAt(s, 0, 10);
    assert MapRange(s, 0, 10) == "don't stop";
  }

  /** "don't stop" splits into its two words. */
  lemma DontStopSplit()
    ensures Split("don't stop") == ["don't", "stop"]
  {
    var t := "don't stop";
    assert t[0..5] == "don't";
    assert t[6..10] == "stop";
    SplitTakeWord(t, 0, 5);
    SplitTakeWord(t, 6, 10);
    assert SplitFrom(t, 5) == SplitFrom(t, 6);
  }

  /** "Don't stop!!" gives the tokens "don't" and "stop": the inner apostrophe stays, the '!' go. */
  lemma DontStop()
    ensures LineTokens("Don't stop!!") == ["don't", "stop"]
  {
    var t := "don't stop";
    DontStopIntermediate();
    assert IsNormalized(t);
    CollapseOfNormalized(t, |t|);
    assert t[..|t|] == t;
    DontStopSplit();
  }

  /**
   * Two apostrophes in a row: each is tested against its neighbours in the
   * first pass's string, and neither has a letter or digit on both sides, so
   * both are dropped and nothing separates the two letters.
   */
  lemma DoubleApostrophe()
    ensures Normalize("a''b") == "ab"
  {
    var s := "a''b";
    NormalizeIsReference(s);
    assert LastWordBefore(s, 4) == 3;
    assert LastWordBefore(s, 3) == 0 by {
      assert LastWordBefore(s, 3) == LastWordBefore(s, 2) == LastWordBefore(s, 1);
    }
    assert WordsUpTo(s, 0) == "a";
    assert Gap(s, 0, 3) == [];
  }

  /** An apostrophe between letters stays: "rock'n'roll" is already normalised. */
  lemma RockNRoll()
    ensures Normalize("rock'n'roll") == "rock'n'roll"
  {
    var t := "rock'n'roll";
    assert AllNeighboursOk(t) by {
      forall p, q | 0 <= p < q < |t| && q == p + 1 ensures NeighboursOk(t[p], t[q]) {
        assert 0 <= p < 10;
      }
    }
    NormalizeFixesNormalized(t);
  }

  /** Quotes around a word are trimmed away with the rest of the leading and trailing separators. */
  lemma HelloQuotes()
    ensures Normalize("'hello'") == "hello"
  {
    var s := "'hello'";
    assert SkipLeading(s, 0) == 1;
    assert SkipTrailing(s, 1, 6) == 5;
    MapRangeAt(s, 1, 5);
    assert MapRange(s, 1, 5) == "hello";
    IntermediateIs(s, 1, 5);
    var t := "hello";
    assert IsNormalized(t);
    CollapseOfNormalized(t, |t|);
    assert t[..|t|] == t;
  }

  /** The first pass over "'a'  b-1": the quotes trimmed, the '-' turned into a space. */
  lemma QuotedLineIntermediate()
    ensures Intermediate("'a'  b-1") == "a'  b 1"
  {
    var s := "'a'  b-1";
    assert SkipLeading(s, 0) == 1;
    assert SkipTrailing(s, 1, 7) == 7;
    MapRangeAt(s, 1, 7);
    assert MapRange(s, 1, 7) == "a'  b 1";
  }

  /** The second pass up to the spaces: the apostrophe with no letter after it is dropped. */
  lemma QuotedLineCollapseHead()
    ensures CollapsePrefix("a'  b 1", 4) == "a "
  {
    var out := "a'  b 1";
    CollapseUnfold(out, 0);
    assert CollapsePrefix(out, 1) == "a";
    CollapseUnfold(out, 1);
    assert CollapsePrefix(out, 2) == "a";
    CollapseUnfold(out, 2);
    assert CollapsePrefix(out, 3) == "a ";
    CollapseUnfold(out, 3);
  }

  /** The rest of the second pass: the second space of the run adds nothing. */
  lemma QuotedLineCollapse()
    ensures CollapsePrefix("a'  b 1", 7) == "a b 1"
  {
    var out := "a'  b 1";
    QuotedLineCollapseHead();
    CollapseUnfold(out, 4);
    assert CollapsePrefix(out, 5) == "a b";
    CollapseUnfold(out, 5);
    assert CollapsePrefix(out, 6) == "a b ";
    CollapseUnfold(out, 6);
  }

  /** "a b 1" splits into its three words. */
  lemma QuotedLineSplit()
    ensures Split("a b 1") == ["a", "b", "1"]
  {
    var t := "a b 1";
    assert t[0..1] == "a" && t[2..3] == "b" && t[4..5] == "1";
    SplitTakeWord(t, 4, 5);
    SplitTakeWord(t, 2, 3);
    assert SplitFrom(t, 3) == SplitFrom(t, 4);
    SplitTakeWord(t, 0, 1);
    assert SplitFrom(t, 1) == SplitFrom(t, 2);
  }

  /**
   * "'a'  b-1" gives "a", "b" and "1": the quotes go with the trimming, the
   * run of spaces collapses to one and the hyphen separates.
   */
  lemma QuotedLine()
    ensures LineTokens("'a'  b-1") == ["a", "b", "1"]
  {
    QuotedLineIntermediate();
    QuotedLineCollapse();
    QuotedLineSplit();
  }

  /** The empty line gives no token. */
  lemma EmptyLine()
    ensures LineTokens("") == []
  {
    NoWordNoTokens("");
  }

  /** Lines without words give no tokens at all. */
  lemma {:induction false} NoWordsNoStream(tss: seq<seq<string>>, n: nat)
    requires n <= |tss|
    requires forall i :: 0 <= i < n ==> |tss[i]| == 0
    ensures Concat(tss, n) == []
  {
    if n > 0 {
      NoWordsNoStream(tss, n - 1);
    }
  }

  /** A file of punctuation and spaces only: no tokens, no distinct words, nothing ranked. */
  lemma NoWordsSummary(lines: seq<string>, k: nat, s: Summary)
    requires forall i, q :: 0 <= i < |lines| && 0 <= q < |lines[i]| ==> !IsWordChar(lines[i][q])
    requires IsSummary(lines, k, s)
    ensures s == Summary(0, 0, [])
  {
    var tss := PerLine(lines);
    forall i | 0 <= i < |lines| ensures |tss[i]| == 0 {
      PerLineAt(lines, i);
      NoWordNoTokens(lines[i]);
    }
    NoWordsNoStream(tss, |lines|);
    assert Tally(Stream(lines)) == map[];
  }

  /** The counts {"a": 3, "b": 5, "c": 5}. */
  function TieCounts(): CountMap {
    map["a" := 3, "b" := 5, "c" := 5]
  }

  /** With k = 2 the two words of count 5 are printed, "b" before "c". */
  lemma TieRanking(top: seq<Entry>)
    requires IsTopK(TieCounts(), 2, top)
    ensures top == [Entry("b", 5), Entry("c", 5)]
  {
    var m, r := TieCounts(), [Entry("b", 5), Entry("c", 5)];
    assert m.Keys == {"a", "b", "c"};
    assert |m| == 3;
    assert LexLess("b", "c");
    assert Words(r) == {"b", "c"} by {
      assert r[0].word == "b" && r[1].word == "c";
    }
    assert IsTopK(m, 2, r);
    TopKUnique(m, 2, top, r);
  }
}

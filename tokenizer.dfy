/**
 * Splitting a normalised line on spaces into tokens: the scan loop inside
 * count_words_streaming and tokenize_line. Split is the reference definition
 * (the maximal runs of non-space chars, left to right); the scan loop is
 * proved to produce exactly Split, and the lemmas say what a token looks like
 * and that joining the tokens with single spaces gives the line back.
 */
module Tokenizer {
  import opened Text
  import opened Normalizer

  /** The end of the run of non-space chars that starts at index i. */
  function WordEnd(s: string, i: nat): (e: nat)
    requires i <= |s|
    ensures i <= e <= |s|
    ensures forall q :: i <= q < e ==> s[q] != ' '
    ensures e < |s| ==> s[e] == ' '
    decreases |s| - i
  {
    if i == |s| || s[i] == ' ' then i else WordEnd(s, i + 1)
  }

  /** The tokens of s[i..]: its maximal runs of non-space chars, in order. */
  function SplitFrom(s: string, i: nat): seq<string>
    requires i <= |s|
    decreases |s| - i
  {
    if i == |s| then []
    else if s[i] == ' ' then SplitFrom(s, i + 1)
    else
      var e := WordEnd(s, i);
      [s[i..e]] + SplitFrom(s, e)
  }

  /** The tokens of s. */
  function Split(s: string): seq<string>
  {
    SplitFrom(s, 0)
  }

  /** The tokens tokenize_line returns for a raw line. */
  function LineTokens(line: string): seq<string> {
    Split(Normalize(line))
  }

  /** The tokens separated by single spaces. */
  function Join(ts: seq<string>): string {
    if |ts| == 0 then [] else if |ts| == 1 then ts[0] else ts[0] + [' '] + Join(ts[1..])
  }

  /** A token: non-empty, lowercase letters, digits and apostrophes, no apostrophe at either end. */
  predicate IsToken(w: string) {
    && |w| > 0
    && (forall q :: 0 <= q < |w| ==> IsNormChar(w[q]) && w[q] != ' ')
    && w[0] != '\'' && w[|w| - 1] != '\''
  }

  // ---------------------------------------------------------------------------
  // The steps of the scan loop
  // ---------------------------------------------------------------------------

  /** A run of non-space chars from start to end (a space or the end of s) is the next token. */
  lemma SplitTakeWord(s: string, start: nat, end: nat)
    requires start < end <= |s|
    requires forall q :: start <= q < end ==> s[q] != ' '
    requires end == |s| || s[end] == ' '
    ensures SplitFrom(s, start) == [s[start..end]] + SplitFrom(s, end)
  {
    assert WordEnd(s, start) == end;
  }

  /** Moving the next token from the tokens ahead to the tokens emitted keeps their concatenation. */
  lemma EmitNext<T>(emitted: seq<T>, w: T, ahead: seq<T>, rest: seq<T>)
    requires ahead == [w] + rest
    ensures emitted + ahead == (emitted + [w]) + rest
  {
  }

  // ---------------------------------------------------------------------------
  // Properties of Split
  // ---------------------------------------------------------------------------

  /** Whatever the string, every token Split yields is non-empty and holds no space. */
  lemma {:induction false} SplitFromNonEmpty(s: string, i: nat)
    requires i <= |s|
    ensures forall w :: w in SplitFrom(s, i) ==> |w| > 0 && forall q :: 0 <= q < |w| ==> w[q] != ' '
    decreases |s| - i
  {
    if i < |s| {
      if s[i] == ' ' {
        SplitFromNonEmpty(s, i + 1);
      } else {
        var e := WordEnd(s, i);
        SplitFromNonEmpty(s, e);
        var w := s[i..e];
        forall q | 0 <= q < |w| ensures w[q] != ' ' {
          assert w[q] == s[i + q];
        }
      }
    }
  }

  /** Split yields no token exactly when s[i..] holds nothing but spaces. */
  lemma {:induction false} SplitFromEmpty(s: string, i: nat)
    requires i <= |s|
    ensures |SplitFrom(s, i)| == 0 <==> forall q :: i <= q < |s| ==> s[q] == ' '
    decreases |s| - i
  {
    if i < |s| && s[i] == ' ' {
      SplitFromEmpty(s, i + 1);
    }
  }

  /** Every apostrophe of s sits between two non-space chars of s. */
  predicate ApostrophesInside(s: string) {
    forall p :: 0 <= p < |s| && s[p] == '\'' ==> 0 < p < |s| - 1 && s[p - 1] != ' ' && s[p + 1] != ' '
  }

  /** From such a line, Split yields tokens: non-empty, no space, no apostrophe at either end. */
  lemma {:induction false} SplitTokensShape(s: string, i: nat)
    requires OverNormChars(s)
    requires ApostrophesInside(s)
    requires i <= |s|
    requires i == 0 || i == |s| || s[i - 1] == ' ' || s[i] == ' '
    ensures forall w :: w in SplitFrom(s, i) ==> IsToken(w)
    decreases |s| - i
  {
    if i == |s| {
    } else if s[i] == ' ' {
      SplitTokensShape(s, i + 1);
    } else {
      var e := WordEnd(s, i);
      SplitTokensShape(s, e);
      var w := s[i..e];
      assert w[0] == s[i] && w[|w| - 1] == s[e - 1];
      forall q | 0 <= q < |w| ensures IsNormChar(w[q]) && w[q] != ' ' {
        assert w[q] == s[i + q];
      }
    }
  }

  /** A normalised line: no leading, trailing or doubled space. */
  predicate SingleSpaced(s: string) {
    && (|s| > 0 ==> s[0] != ' ' && s[|s| - 1] != ' ')
    && forall p :: 0 <= p < |s| - 1 && s[p] == ' ' ==> s[p + 1] != ' '
  }

  /** Joining the tokens of a single-spaced line with single spaces gives the line back. */
  lemma {:induction false} JoinSplitFrom(s: string, i: nat)
    requires SingleSpaced(s)
    requires i < |s| && s[i] != ' '
    ensures SplitFrom(s, i) != []
    ensures Join(SplitFrom(s, i)) == s[i..]
    decreases |s| - i
  {
    var e := WordEnd(s, i);
    var ts := SplitFrom(s, i);
    assert ts == [s[i..e]] + SplitFrom(s, e);
    if e == |s| {
      assert SplitFrom(s, e) == [];
      assert ts == [s[i..e]];
      assert s[i..e] == s[i..];
    } else {
      assert e + 1 < |s| by { assert s[|s| - 1] != ' '; }
      assert s[e + 1] != ' ';
      JoinSplitFrom(s, e + 1);
      assert SplitFrom(s, e) == SplitFrom(s, e + 1);
      JoinCons(s[i..e], SplitFrom(s, e + 1));
      SliceAround(s, i, e);
    }
  }

  /** Join puts one space between the first token and the join of the others. */
  lemma JoinCons(w: string, rest: seq<string>)
    requires |rest| > 0
    ensures Join([w] + rest) == w + [' '] + Join(rest)
  {
    assert ([w] + rest)[1..] == rest;
  }

  /** s[i..] cut around the char at index e. */
  lemma SliceAround<T>(s: seq<T>, i: nat, e: nat)
    requires i <= e < |s|
    ensures s[i..] == s[i..e] + [s[e]] + s[e + 1..]
  {
  }

  lemma JoinSplit(s: string)
    requires SingleSpaced(s)
    ensures Join(Split(s)) == s
  {
    if |s| > 0 {
      JoinSplitFrom(s, 0);
    }
  }

  /** What the lines' tokens look like: from a normalised line, Split yields tokens that join back to it. */
  lemma NormalizedSplit(t: string)
    requires IsNormalized(t)
    ensures forall w :: w in Split(t) ==> IsToken(w)
    ensures Join(Split(t)) == t
  {
    assert ApostrophesInside(t) by {
      forall p | 0 <= p < |t| && t[p] == '\'' ensures 0 < p < |t| - 1 && t[p - 1] != ' ' && t[p + 1] != ' ' {
        assert p != 0 && p != |t| - 1;
        assert NeighboursOk(t[p - 1], t[p]);
        assert NeighboursOk(t[p], t[p + 1]);
      }
    }
    SplitTokensShape(t, 0);
    assert SingleSpaced(t) by {
      forall p | 0 <= p < |t| - 1 && t[p] == ' ' ensures t[p + 1] != ' ' {
        assert NeighboursOk(t[p], t[p + 1]);
      }
    }
    JoinSplit(t);
  }

  /** Every token of a line is non-empty and made of lowercase letters, digits and inner apostrophes. */
  lemma LineTokensShape(line: string)
    ensures forall w :: w in LineTokens(line) ==> IsToken(w)
  {
    NormalizeShape(line);
    NormalizedSplit(Normalize(line));
  }

  /** A line without any letter or digit yields no token. */
  lemma NoWordNoTokens(line: string)
    requires forall q :: 0 <= q < |line| ==> !IsWordChar(line[q])
    ensures LineTokens(line) == []
  {
    NormalizeNoWord(line);
  }

  // ---------------------------------------------------------------------------
  // The algorithm
  // ---------------------------------------------------------------------------

  /** The skip-spaces loop: from start, move past the spaces; the tokens ahead stay the same. */
  method SkipSpaces(s: string, start: nat) returns (i: nat)
    requires start <= |s|
    ensures start <= i <= |s|
    ensures forall q :: start <= q < i ==> s[q] == ' '
    ensures i < |s| ==> s[i] != ' '
    ensures SplitFrom(s, i) == SplitFrom(s, start)
  {
    i := start;
    while i < |s| && s[i] == ' '
      invariant start <= i <= |s|
      invariant forall q :: start <= q < i ==> s[q] == ' '
      invariant SplitFrom(s, i) == SplitFrom(s, start)
    {
      i := i + 1;
    }
  }

  /** The word loop: from a non-space at start, move to the next space or the end of s. */
  method ScanWord(s: string, start: nat) returns (end: nat)
    requires start < |s| && s[start] != ' '
    ensures start < end <= |s|
    ensures forall q :: start <= q < end ==> s[q] != ' '
    ensures end < |s| ==> s[end] == ' '
    ensures SplitFrom(s, start) == [s[start..end]] + SplitFrom(s, end)
  {
    end := start;
    while end < |s| && s[end] != ' '
      invariant start <= end <= |s|
      invariant forall q :: start <= q < end ==> s[q] != ' '
    {
      end := end + 1;
    }
    SplitTakeWord(s, start, end);
  }

  /**
   * The scan loop over a normalised line: skip spaces, cut out the run of
   * non-spaces that follows as one token, repeat until the end.
   */
  method SplitLine(norm: string) returns (tokens: seq<string>)
    ensures tokens == Split(norm)
  {
    tokens := [];
    var len := |norm|;
    var start := 0;
    while start < len
      invariant 0 <= start <= len
      invariant tokens + SplitFrom(norm, start) == Split(norm)
    {
      start := SkipSpaces(norm, start);
      if start >= len {
        break;
      }
      var end := ScanWord(norm, start);
      if end > start {
        EmitNext(tokens, norm[start..end], SplitFrom(norm, start), SplitFrom(norm, end));
        tokens := tokens + [norm[start..end]];
      }
      start := end;
    }
  }

  /** tokenize_line: normalise the line, then split it on spaces. */
  method TokenizeLine(line: string) returns (tokens: seq<string>)
    ensures tokens == LineTokens(line)
    ensures forall w :: w in tokens ==> IsToken(w)
    ensures Join(tokens) == Normalize(line)
  {
    var norm := NormalizeToken(line);
    tokens := SplitLine(norm);
    NormalizeShape(line);
    NormalizedSplit(norm);
  }
}

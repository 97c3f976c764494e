/**
 * A second, independent description of normalize_token, read off the raw line
 * rather than off the two passes: the letters and digits of the line,
 * lowercased and in order, and between two consecutive ones an apostrophe when
 * exactly one apostrophe stands between them in the line, a single space when
 * anything other than apostrophes stands between them, and nothing otherwise.
 * Normalize is proved equal to it on every line, and from it follows that the
 * letters and digits of the result are those of the line, lowercased.
 */
module NormalForm {
  import opened Text
  import opened Normalizer

  // ---------------------------------------------------------------------------
  // The reference description
  // ---------------------------------------------------------------------------

  /** The index of the last letter or digit before q, or -1 when there is none. */
  function LastWordBefore(s: string, q: nat): (r: int)
    requires q <= |s|
    ensures -1 <= r < q
    ensures r >= 0 ==> IsWordChar(s[r])
    ensures forall t :: r < t < q ==> !IsWordChar(s[t])
    decreases q
  {
    if q == 0 then -1 else if IsWordChar(s[q - 1]) then q - 1 else LastWordBefore(s, q - 1)
  }

  /** What the result holds between the consecutive letters or digits s[p] and s[q]. */
  function Gap(s: string, p: nat, q: nat): string
    requires p < q <= |s|
  {
    if q == p + 2 && s[p + 1] == '\'' then "'"
    else if exists t :: p < t < q && s[t] != '\'' then " "
    else []
  }

  /** The result up to and including the letter or digit s[q]. */
  function WordsUpTo(s: string, q: nat): string
    requires q < |s| && IsWordChar(s[q])
    decreases q
  {
    var p := LastWordBefore(s, q);
    (if p < 0 then [] else WordsUpTo(s, p as nat) + Gap(s, p as nat, q)) + [ToLower(s[q])]
  }

  /** The normalised line, described on the raw line. */
  function Reference(s: string): string {
    var last := LastWordBefore(s, |s|);
    if last < 0 then [] else WordsUpTo(s, last as nat)
  }

  /** The letters and digits of s, in order. */
  function WordChars(s: string): string {
    if |s| == 0 then [] else WordChars(s[..|s| - 1]) + (if IsWordChar(s[|s| - 1]) then [s[|s| - 1]] else [])
  }

  /** s with every char passed through tolower. */
  function LowerAll(s: string): string {
    seq(|s|, q requires 0 <= q < |s| => ToLower(s[q]))
  }

  // ---------------------------------------------------------------------------
  // The second pass across one gap between two letters or digits
  // ---------------------------------------------------------------------------

  /** Some char of out[k..j] is a space. */
  predicate HasSpace(out: string, k: nat, j: nat)
    requires k <= j <= |out|
    decreases j
  {
    j > k && (out[j - 1] == ' ' || HasSpace(out, k, j - 1))
  }

  /** HasSpace as a quantifier. */
  lemma {:induction false} HasSpaceAt(out: string, k: nat, j: nat)
    requires k <= j <= |out|
    ensures HasSpace(out, k, j) <==> exists r :: k <= r < j && out[r] == ' '
    decreases j
  {
    if j > k {
      HasSpaceAt(out, k, j - 1);
    }
  }

  /**
   * What the second pass has appended after the letter or digit out[k - 1]
   * once it has looked at out[k..j], where out[m - 1] is the next letter or digit.
   */
  function GapPart(out: string, k: nat, j: nat, m: nat): string
    requires k <= j <= |out|
  {
    if HasSpace(out, k, j) then " "
    else if j == k + 1 && m == k + 2 && out[k] == '\'' then "'"
    else []
  }

  /** One more separator of the gap, after cl that ends with a letter or digit. */
  lemma GapPartStep(out: string, k: nat, j: nat, m: nat, cl: string)
    requires IsIntermediate(out)
    requires 0 < k < j < m <= |out|
    requires IsWordChar(out[k - 1]) && IsWordChar(out[m - 1])
    requires forall r :: k <= r < m - 1 ==> !IsWordChar(out[r])
    requires |cl| > 0 && IsWordChar(cl[|cl| - 1])
    ensures GapPart(out, k, j - 1, m) + Emitted(out, j - 1, cl + GapPart(out, k, j - 1, m)) == GapPart(out, k, j, m)
  {
    var x := GapPart(out, k, j - 1, m);
    var c := cl + x;
    assert IsNormChar(out[j - 1]) && !IsWordChar(out[j - 1]);
    assert x != "'";
    assert |c| > 0 && c[|c| - 1] == (if x == " " then ' ' else cl[|cl| - 1]);
    if out[j - 1] != ' ' {
      assert out[j - 1] == '\'';
      assert IsWordChar(out[j - 2]) <==> j - 1 == k by {
        if j - 1 > k { assert !IsWordChar(out[j - 2]); }
      }
      assert IsWordChar(out[j]) <==> j == m - 1;
    }
  }

  /** a + b + c regrouped, once b + c is known. */
  lemma Regroup<T>(a: seq<T>, b: seq<T>, c: seq<T>, d: seq<T>)
    requires b + c == d
    ensures (a + b) + c == a + d
  {
  }

  /** The second pass ends a prefix that ends with a letter or digit with that char. */
  lemma CollapseEndsWithWord(out: string, k: nat)
    requires 0 < k <= |out| && IsWordChar(out[k - 1])
    ensures |CollapsePrefix(out, k)| > 0 && IsWordChar(CollapsePrefix(out, k)[|CollapsePrefix(out, k)| - 1])
  {
    CollapseUnfold(out, k - 1);
  }

  /** The second pass over out[k..j] has appended GapPart to what it had built up to out[k]. */
  ghost predicate GapBuilt(out: string, k: nat, j: nat, m: nat)
    requires k <= j < m <= |out|
  {
    CollapsePrefix(out, j) == CollapsePrefix(out, k) + GapPart(out, k, j, m)
  }

  /** One step of the second pass inside the gap. */
  lemma CollapseGapStep(out: string, k: nat, j: nat, m: nat)
    requires IsIntermediate(out)
    requires 0 < k < j < m <= |out|
    requires IsWordChar(out[k - 1]) && IsWordChar(out[m - 1])
    requires forall r :: k <= r < m - 1 ==> !IsWordChar(out[r])
    requires GapBuilt(out, k, j - 1, m)
    ensures GapBuilt(out, k, j, m)
  {
    var cl := CollapsePrefix(out, k);
    var x := GapPart(out, k, j - 1, m);
    var prev := CollapsePrefix(out, j - 1);
    CollapseEndsWithWord(out, k);
    GapPartStep(out, k, j, m, cl);
    var e := Emitted(out, j - 1, cl + x);
    CollapseUnfold(out, j - 1);
    assert CollapsePrefix(out, j) == prev + e;
    Regroup(cl, x, e, GapPart(out, k, j, m));
  }

  /** x == y + e where y == a + g. */
  lemma Snoc3<T>(x: seq<T>, y: seq<T>, a: seq<T>, g: seq<T>, e: seq<T>)
    requires x == y + e && y == a + g
    ensures x == a + g + e
  {
  }

  /** The second pass across the separators out[k..m - 1] between two letters or digits. */
  lemma {:induction false} CollapseGap(out: string, k: nat, j: nat, m: nat)
    requires IsIntermediate(out)
    requires 0 < k <= j < m <= |out|
    requires IsWordChar(out[k - 1]) && IsWordChar(out[m - 1])
    requires forall r :: k <= r < m - 1 ==> !IsWordChar(out[r])
    ensures GapBuilt(out, k, j, m)
    decreases j - k
  {
    if j > k {
      CollapseGap(out, k, j - 1, m);
      CollapseGapStep(out, k, j, m);
    } else {
      assert GapPart(out, k, j, m) == [];
    }
  }

  /** Mapped back to the line, the gap the second pass produces is Gap. */
  lemma GapPartIsGap(s: string, i: nat, out: string, p: nat, q: nat)
    requires i <= p < q < |s| && q - i < |out|
    requires forall x :: p - i + 1 <= x < q - i ==> out[x] == MapChar(s[i + x])
    requires forall t :: p < t < q ==> !IsWordChar(s[t])
    ensures GapPart(out, p - i + 1, q - i, q - i + 1) == Gap(s, p, q)
  {
    var a1, j := p - i + 1, q - i;
    HasSpaceAt(out, a1, j);
    assert forall r :: a1 <= r < j ==> (out[r] == ' ' <==> s[i + r] != '\'');
    if exists t :: p < t < q && s[t] != '\'' {
      var t :| p < t < q && s[t] != '\'';
      assert out[t - i] == ' ';
    }
    if exists r :: a1 <= r < j && out[r] == ' ' {
      var r :| a1 <= r < j && out[r] == ' ';
      assert s[i + r] != '\'';
    }
    if q == p + 2 {
      assert out[a1] == '\'' <==> s[p + 1] == '\'';
    }
  }

  /** out is the first pass's string of s, which spans s[i..i + |out|]. */
  ghost predicate FirstPass(s: string, i: nat, out: string) {
    && i + |out| <= |s|
    && IsIntermediate(out)
    && (forall x :: 0 <= x < |out| ==> out[x] == MapChar(s[i + x]))
    && (forall t :: 0 <= t < i ==> !IsWordChar(s[t]))
  }

  /** The first letter or digit of the span: the second pass starts WordsUpTo with it. */
  lemma CollapseFirst(s: string, i: nat, out: string, q: nat)
    requires FirstPass(s, i, out)
    requires i <= q < i + |out| && IsWordChar(s[q])
    requires LastWordBefore(s, q) < 0
    ensures CollapsePrefix(out, q - i + 1) == WordsUpTo(s, q)
  {
    assert IsWordChar(out[0]) && out[0] == MapChar(s[i]);
    assert q == i;
    CollapseUnfold(out, 0);
    assert CollapsePrefix(out, 0) == [];
    assert out[0] == MapChar(s[q]);
  }

  /** From the letter or digit out[p - i] to the next one, out[q - i], across the gap between them. */
  lemma CollapseToNextWord(out: string, i: nat, p: nat, q: nat)
    requires IsIntermediate(out)
    requires i <= p < q && q - i < |out|
    requires IsWordChar(out[p - i]) && IsWordChar(out[q - i])
    requires forall r :: p - i < r < q - i ==> !IsWordChar(out[r])
    ensures CollapsePrefix(out, q - i + 1) == CollapsePrefix(out, p - i + 1) + GapPart(out, p - i + 1, q - i, q - i + 1) + [out[q - i]]
  {
    CollapseGap(out, p - i + 1, q - i, q - i + 1);
    CollapseUnfold(out, q - i);
    assert Emitted(out, q - i, CollapsePrefix(out, q - i)) == [out[q - i]];
    Snoc3(CollapsePrefix(out, q - i + 1), CollapsePrefix(out, q - i), CollapsePrefix(out, p - i + 1),
          GapPart(out, p - i + 1, q - i, q - i + 1), [out[q - i]]);
  }

  /** The first k chars of the second pass over out are the reference up to s[q]. */
  ghost predicate Builds(out: string, k: nat, s: string, q: nat)
    requires k <= |out| && q < |s| && IsWordChar(s[q])
  {
    CollapsePrefix(out, k) == WordsUpTo(s, q)
  }

  /** WordsUpTo unfolded once, at a letter or digit with an earlier one. */
  lemma WordsUpToStep(s: string, p: nat, q: nat)
    requires p < q < |s| && IsWordChar(s[q]) && LastWordBefore(s, q) == p
    ensures WordsUpTo(s, q) == WordsUpTo(s, p) + Gap(s, p, q) + [ToLower(s[q])]
  {
  }

  /** From the letter or digit s[p] to the next one, s[q], which are out[p - i] and out[q - i]. */
  lemma CollapseNext(s: string, i: nat, out: string, p: nat, q: nat)
    requires IsIntermediate(out)
    requires i <= p < q < |s| && q - i < |out|
    requires IsWordChar(s[p]) && IsWordChar(s[q]) && IsWordChar(out[p - i]) && IsWordChar(out[q - i]) && out[q - i] == ToLower(s[q])
    requires forall r :: p - i < r < q - i ==> !IsWordChar(out[r])
    requires forall x :: p - i + 1 <= x < q - i ==> out[x] == MapChar(s[i + x])
    requires LastWordBefore(s, q) == p
    requires Builds(out, p - i + 1, s, p)
    ensures Builds(out, q - i + 1, s, q)
  {
    CollapseToNextWord(out, i, p, q);
    GapPartIsGap(s, i, out, p, q);
    WordsUpToStep(s, p, q);
  }

  /** One step of CollapseUpTo: from the previous letter or digit s[p] to s[q]. */
  lemma CollapseUpToStep(s: string, i: nat, out: string, p: nat, q: nat)
    requires FirstPass(s, i, out)
    requires i <= p < q < i + |out| && IsWordChar(s[p]) && IsWordChar(s[q])
    requires LastWordBefore(s, q) == p
    requires Builds(out, p - i + 1, s, p)
    ensures Builds(out, q - i + 1, s, q)
  {
    assert IsWordChar(out[p - i]) && out[q - i] == ToLower(s[q]) by {
      assert out[p - i] == MapChar(s[p]) && out[q - i] == MapChar(s[q]);
    }
    assert forall r :: p - i < r < q - i ==> !IsWordChar(out[r]) by {
      forall r | p - i < r < q - i ensures !IsWordChar(out[r]) {
        assert out[r] == MapChar(s[i + r]) && p < i + r < q;
      }
    }
    CollapseNext(s, i, out, p, q);
  }

  /** The second pass up to the letter or digit s[q] builds WordsUpTo(s, q). */
  lemma {:induction false} CollapseUpTo(s: string, i: nat, out: string, q: nat)
    requires FirstPass(s, i, out)
    requires i <= q < i + |out| && IsWordChar(s[q])
    ensures Builds(out, q - i + 1, s, q)
    decreases q
  {
    var p := LastWordBefore(s, q);
    if p < 0 {
      CollapseFirst(s, i, out, q);
    } else {
      assert i <= p;
      CollapseUpTo(s, i, out, p as nat);
      CollapseUpToStep(s, i, out, p as nat, q);
    }
  }

  /** The last letter or digit of a line with one is where the trimming stops. */
  lemma LineEnd(s: string, i: nat, j: nat)
    requires SkipLeading(s, 0) == i < |s| && SkipTrailing(s, i, |s| - 1) == j
    ensures i <= j < |s| && IsWordChar(s[j]) && LastWordBefore(s, |s|) == j
  {
    assert IsWordChar(s[j]);
  }

  /** The first pass keeps s[i..j + 1], from the first to the last letter or digit of the line. */
  lemma LineSpan(s: string, i: nat, j: nat)
    requires SkipLeading(s, 0) == i < |s| && SkipTrailing(s, i, |s| - 1) == j
    ensures FirstPass(s, i, Intermediate(s)) && |Intermediate(s)| == j - i + 1
  {
    IntermediateIs(s, i, j);
    MapRangeAt(s, i, j - i + 1);
  }

  /** The whole second pass over the first pass's string is the reference. */
  lemma FinishReference(s: string, i: nat, j: nat)
    requires i <= j < |s| && IsWordChar(s[j]) && LastWordBefore(s, |s|) == j
    requires |Intermediate(s)| == j - i + 1
    requires Builds(Intermediate(s), j - i + 1, s, j)
    ensures Normalize(s) == Reference(s)
  {
    var out := Intermediate(s);
    assert Normalize(s) == CollapsePrefix(out, |out|);
    assert Reference(s) == WordsUpTo(s, j);
    assert CollapsePrefix(out, j - i + 1) == WordsUpTo(s, j);
  }

  /** normalize_token computes the reference description on every line. */
  lemma NormalizeIsReference(s: string)
    ensures Normalize(s) == Reference(s)
  {
    var i := SkipLeading(s, 0);
    if i == |s| {
      assert LastWordBefore(s, |s|) < 0;
    } else {
      var j := SkipTrailing(s, i, |s| - 1);
      LineEnd(s, i, j);
      LineSpan(s, i, j);
      CollapseUpTo(s, i, Intermediate(s), j);
      FinishReference(s, i, j);
    }
  }

  // ---------------------------------------------------------------------------
  // Letters and digits come through lowercased and in order
  // ---------------------------------------------------------------------------

  lemma {:induction false} WordCharsAppend(a: string, b: string)
    ensures WordChars(a + b) == WordChars(a) + WordChars(b)
    decreases |b|
  {
    if |b| > 0 {
      var b' := b[..|b| - 1];
      assert (a + b)[..|a + b| - 1] == a + b';
      WordCharsAppend(a, b');
    } else {
      assert a + b == a;
    }
  }

  lemma {:induction false} WordCharsNone(s: string)
    requires forall q :: 0 <= q < |s| ==> !IsWordChar(s[q])
    ensures WordChars(s) == []
    decreases |s|
  {
    if |s| > 0 {
      WordCharsNone(s[..|s| - 1]);
    }
  }

  /** A prefix grows by one char at a time. */
  lemma WordCharsPrefix(s: string, q: nat)
    requires q < |s|
    ensures WordChars(s[..q + 1]) == WordChars(s[..q]) + (if IsWordChar(s[q]) then [s[q]] else [])
  {
    assert s[..q + 1][..q] == s[..q];
  }

  /** Chars without a letter or digit between p and q add nothing. */
  lemma WordCharsSkip(s: string, p: nat, q: nat)
    requires p < q <= |s|
    requires forall t :: p < t < q ==> !IsWordChar(s[t])
    ensures WordChars(s[..q]) == WordChars(s[..p + 1])
  {
    assert s[..q] == s[..p + 1] + s[p + 1..q];
    WordCharsNone(s[p + 1..q]);
    WordCharsAppend(s[..p + 1], s[p + 1..q]);
  }

  /** Appending separators and then one letter or digit adds that char. */
  lemma WordCharsGapThen(a: string, g: string, c: char)
    requires forall q :: 0 <= q < |g| ==> !IsWordChar(g[q])
    requires IsWordChar(c)
    ensures WordChars(a + g + [c]) == WordChars(a) + [c]
  {
    WordCharsNone(g);
    WordCharsAppend(a, g);
    assert (a + g + [c])[..|a + g + [c]| - 1] == a + g;
  }

  lemma LowerAllSnoc(a: string, c: char)
    ensures LowerAll(a + [c]) == LowerAll(a) + [ToLower(c)]
  {
  }

  /** The letters and digits of the reference result up to s[q] are those of s[..q + 1], lowercased. */
  lemma {:induction false} WordsUpToWordChars(s: string, q: nat)
    requires q < |s| && IsWordChar(s[q])
    ensures WordChars(WordsUpTo(s, q)) == LowerAll(WordChars(s[..q + 1]))
    decreases q
  {
    var p := LastWordBefore(s, q);
    WordCharsPrefix(s, q);
    if p < 0 {
      assert forall t :: 0 <= t < q ==> !IsWordChar(s[..q][t]);
      WordCharsNone(s[..q]);
      WordCharsGapThen([], [], ToLower(s[q]));
      LowerAllSnoc([], s[q]);
    } else {
      var pn := p as nat;
      WordsUpToWordChars(s, pn);
      WordCharsGapThen(WordsUpTo(s, pn), Gap(s, pn, q), ToLower(s[q]));
      WordCharsSkip(s, pn, q);
      LowerAllSnoc(WordChars(s[..pn + 1]), s[q]);
    }
  }

  /** The letters and digits of the normalised line are those of the line, lowercased, in order. */
  lemma NormalizeKeepsWordChars(s: string)
    ensures WordChars(Normalize(s)) == LowerAll(WordChars(s))
  {
    NormalizeIsReference(s);
    var last := LastWordBefore(s, |s|);
    if last < 0 {
      WordCharsNone(s);
    } else {
      var ln := last as nat;
      WordsUpToWordChars(s, ln);
      WordCharsSkip(s, ln, |s|);
      assert s[..|s|] == s;
    }
  }
}

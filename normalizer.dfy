/**
 * normalize_token: turns one raw line into lowercase words separated by single
 * spaces, keeping an apostrophe only between two letters or digits.
 *
 * The reference definition follows the two passes of the source: Intermediate
 * is the string `out` (the span from the first to the last letter or digit,
 * lowercased, with every other non-apostrophe char turned into a space), and
 * CollapsePrefix is the second pass that builds `cleaned`. NormalizeToken is
 * the imperative algorithm, proved to compute Normalize; the lemmas state what
 * a normalised line looks like and that normalising twice changes nothing.
 */
module Normalizer {
  import opened Text

  // ---------------------------------------------------------------------------
  // Reference definition
  // ---------------------------------------------------------------------------

  /** The index of the first letter or digit at or after i, or |s| when there is none. */
  function SkipLeading(s: string, i: nat): (r: nat)
    requires i <= |s|
    ensures i <= r <= |s|
    ensures forall q :: i <= q < r ==> !IsWordChar(s[q])
    ensures r < |s| ==> IsWordChar(s[r])
    decreases |s| - i
  {
    if i == |s| || IsWordChar(s[i]) then i else SkipLeading(s, i + 1)
  }

  /** The index of the last letter or digit in s[i..j + 1], given that s[i] is one. */
  function SkipTrailing(s: string, i: nat, j: nat): (r: nat)
    requires i <= j < |s| && IsWordChar(s[i])
    ensures i <= r <= j && IsWordChar(s[r])
    ensures forall q :: r < q <= j ==> !IsWordChar(s[q])
    decreases j
  {
    if j == i || IsWordChar(s[j]) then j else SkipTrailing(s, i, j - 1)
  }

  /** First pass, one char: letters and digits lowercased, an apostrophe kept, anything else a space. */
  function MapChar(c: char): (r: char)
    ensures IsNormChar(r)
    ensures IsWordChar(r) <==> IsWordChar(c)
    ensures r == '\'' <==> c == '\''
    ensures IsWordChar(c) ==> r == ToLower(c)
  {
    if IsWordChar(c) || c == '\'' then ToLower(c) else ' '
  }

  /** The shape of the intermediate string: normalised chars, starting and ending with a letter or digit. */
  predicate IsIntermediate(out: string) {
    && (forall q :: 0 <= q < |out| ==> IsNormChar(out[q]))
    && (|out| > 0 ==> IsWordChar(out[0]) && IsWordChar(out[|out| - 1]))
  }

  /** The first pass over the len chars of s from index i. */
  function MapRange(s: string, i: nat, len: nat): (out: string)
    requires i + len <= |s|
    ensures |out| == len
  {
    if len == 0 then [] else MapRange(s, i, len - 1) + [MapChar(s[i + len - 1])]
  }

  /** The first pass maps each char on its own. */
  lemma {:induction false} MapRangeAt(s: string, i: nat, len: nat)
    requires i + len <= |s|
    ensures forall q :: 0 <= q < len ==> MapRange(s, i, len)[q] == MapChar(s[i + q])
  {
    if len > 0 {
      MapRangeAt(s, i, len - 1);
    }
  }

  /** The string `out` of the first pass. */
  function Intermediate(s: string): (out: string)
    ensures |out| <= |s|
    ensures IsIntermediate(out)
    ensures |out| == 0 <==> forall q :: 0 <= q < |s| ==> !IsWordChar(s[q])
  {
    var i := SkipLeading(s, 0);
    if i == |s| then []
    else
      var j := SkipTrailing(s, i, |s| - 1);
      var out := MapRange(s, i, j - i + 1);
      MapRangeAt(s, i, j - i + 1);
      assert out[0] == MapChar(s[i]) && out[|out| - 1] == MapChar(s[j]);
      out
  }

  /** What the second pass appends for out[k], given the string `cleaned` built so far. */
  function Emitted(out: string, k: nat, cleaned: string): (r: string)
    requires k < |out|
    ensures |r| <= 1
    ensures IsWordChar(out[k]) <==> |r| == 1 && IsWordChar(r[0])
  {
    if IsWordChar(out[k]) then [out[k]]
    else if out[k] == '\'' then
      if 0 < k && IsWordChar(out[k - 1]) && k + 1 < |out| && IsWordChar(out[k + 1]) then ['\''] else []
    else if |cleaned| > 0 && cleaned[|cleaned| - 1] != ' ' then [' ']
    else []
  }

  /** The string `cleaned` after the second pass has looked at out[..k]. */
  function CollapsePrefix(out: string, k: nat): (cleaned: string)
    requires k <= |out|
    ensures |cleaned| <= k
  {
    if k == 0 then []
    else
      var c := CollapsePrefix(out, k - 1);
      c + Emitted(out, k - 1, c)
  }

  /** The result of normalize_token. */
  function Normalize(s: string): (r: string)
    ensures |r| <= |s|
  {
    var out := Intermediate(s);
    CollapsePrefix(out, |out|)
  }

  /** A line without any letter or digit normalises to the empty string. */
  lemma NormalizeNoWord(s: string)
    requires forall q :: 0 <= q < |s| ==> !IsWordChar(s[q])
    ensures Normalize(s) == []
  {
    assert Intermediate(s) == [];
  }

  // ---------------------------------------------------------------------------
  // What a normalised line looks like
  // ---------------------------------------------------------------------------

  /** Every char is a lowercase letter, a digit, an apostrophe or a space. */
  predicate OverNormChars(t: string) {
    forall p :: 0 <= p < |t| ==> IsNormChar(t[p])
  }

  /** No leading or trailing separator: a non-empty line starts and ends with a letter or digit. */
  predicate WordAtBothEnds(t: string) {
    |t| > 0 ==> IsWordChar(t[0]) && IsWordChar(t[|t| - 1])
  }

  /**
   * Two neighbouring chars of a normalised line: never two spaces, and an
   * apostrophe only next to a letter or digit.
   */
  predicate NeighboursOk(a: char, b: char) {
    && !(a == ' ' && b == ' ')
    && (a == '\'' ==> IsWordChar(b))
    && (b == '\'' ==> IsWordChar(a))
  }

  ghost predicate AllNeighboursOk(t: string) {
    forall p, q :: 0 <= p < q < |t| && q == p + 1 ==> NeighboursOk(t[p], t[q])
  }

  /**
   * The shape of a normalised line: lowercase letters, digits, apostrophes and
   * spaces; no leading or trailing space; no two adjacent spaces; every
   * apostrophe strictly between two letters or digits.
   */
  ghost predicate IsNormalized(t: string) {
    OverNormChars(t) && WordAtBothEnds(t) && AllNeighboursOk(t)
  }

  lemma NeighboursSnoc(c: string, x: char)
    requires AllNeighboursOk(c)
    requires |c| > 0 ==> NeighboursOk(c[|c| - 1], x)
    ensures AllNeighboursOk(c + [x])
  {
    var c' := c + [x];
    forall p, q | 0 <= p < q < |c'| && q == p + 1 ensures NeighboursOk(c'[p], c'[q]) {
      if q < |c| {
        assert c'[p] == c[p] && c'[q] == c[q];
      }
    }
  }

  /** What the second pass keeps true after each step (at k == |out| it gives IsNormalized). */
  ghost predicate CollapseInv(out: string, k: nat, c: string)
    requires k <= |out|
  {
    && OverNormChars(c)
    && (0 < k ==> |c| > 0 && IsWordChar(c[0]))
    && AllNeighboursOk(c)
    // an apostrophe is emitted only when the next char of `out` is a letter or digit
    && (|c| > 0 && c[|c| - 1] == '\'' ==> k < |out| && IsWordChar(out[k]))
    // a letter or digit is always emitted
    && (0 < k && IsWordChar(out[k - 1]) ==> |c| > 0 && c[|c| - 1] == out[k - 1])
  }

  lemma CollapseStep(out: string, k: nat)
    requires IsIntermediate(out)
    requires k < |out|
    requires CollapseInv(out, k, CollapsePrefix(out, k))
    ensures CollapseInv(out, k + 1, CollapsePrefix(out, k + 1))
  {
    var c := CollapsePrefix(out, k);
    var e := Emitted(out, k, c);
    assert c + e == CollapsePrefix(out, k + 1);
    assert IsNormChar(out[k]);
    if |e| > 0 {
      assert |e| == 1;
      if IsWordChar(out[k]) {
        assert e == [out[k]];
      } else if out[k] == '\'' {
        assert e == ['\''] && IsWordChar(out[k - 1]);
      } else {
        assert e == [' '] && |c| > 0 && c[|c| - 1] != ' ';
      }
      NeighboursSnoc(c, e[0]);
      assert c + e == c + [e[0]];
    }
  }

  lemma {:induction false} CollapseInvAll(out: string, k: nat)
    requires IsIntermediate(out)
    requires k <= |out|
    ensures CollapseInv(out, k, CollapsePrefix(out, k))
  {
    if k > 0 {
      CollapseInvAll(out, k - 1);
      CollapseStep(out, k - 1);
    }
  }

  /** The second pass turns any intermediate string into a normalised one. */
  lemma CollapseShape(out: string)
    requires IsIntermediate(out)
    ensures IsNormalized(CollapsePrefix(out, |out|))
  {
    CollapseInvAll(out, |out|);
    var c := CollapsePrefix(out, |out|);
    if |out| > 0 {
      assert IsWordChar(out[|out| - 1]);
      assert c[|c| - 1] == out[|out| - 1];
    }
  }

  /** Whatever the input, the result of normalize_token has the normalised shape. */
  lemma NormalizeShape(s: string)
    ensures IsNormalized(Normalize(s))
  {
    CollapseShape(Intermediate(s));
  }

  // ---------------------------------------------------------------------------
  // Idempotence
  // ---------------------------------------------------------------------------

  lemma IntermediateOfNormalized(t: string)
    requires IsNormalized(t)
    ensures Intermediate(t) == t
  {
    if |t| > 0 {
      assert SkipLeading(t, 0) == 0;
      assert SkipTrailing(t, 0, |t| - 1) == |t| - 1;
      var out := MapRange(t, 0, |t|);
      MapRangeAt(t, 0, |t|);
      assert Intermediate(t) == out;
      forall q | 0 <= q < |t| ensures out[q] == t[q] {
        assert IsNormChar(t[q]);
      }
    }
  }

  lemma {:induction false} CollapseOfNormalized(t: string, k: nat)
    requires IsNormalized(t)
    requires k <= |t|
    ensures CollapsePrefix(t, k) == t[..k]
  {
    if k > 0 {
      CollapseOfNormalized(t, k - 1);
      var c := t[..k - 1];
      assert IsNormChar(t[k - 1]);
      if t[k - 1] == ' ' {
        assert 0 < k - 1 by { assert IsWordChar(t[0]); }
        assert c[|c| - 1] == t[k - 2];
      }
      assert Emitted(t, k - 1, c) == [t[k - 1]];
      assert t[..k] == c + [t[k - 1]];
    }
  }

  /** A normalised line is a fixed point of normalize_token. */
  lemma NormalizeFixesNormalized(t: string)
    requires IsNormalized(t)
    ensures Normalize(t) == t
  {
    IntermediateOfNormalized(t);
    CollapseOfNormalized(t, |t|);
  }

  /** normalize_token(normalize_token(s)) == normalize_token(s). */
  lemma NormalizeIdempotent(s: string)
    ensures Normalize(Normalize(s)) == Normalize(s)
  {
    NormalizeShape(s);
    NormalizeFixesNormalized(Normalize(s));
  }

  // ---------------------------------------------------------------------------
  // The algorithm
  // ---------------------------------------------------------------------------

  lemma IntermediateIs(s: string, i: nat, j: nat)
    requires SkipLeading(s, 0) == i < |s|
    requires SkipTrailing(s, i, |s| - 1) == j
    ensures Intermediate(s) == MapRange(s, i, j - i + 1)
  {
  }

  lemma CollapseUnfold(out: string, k: nat)
    requires k < |out|
    ensures CollapsePrefix(out, k + 1) == CollapsePrefix(out, k) + Emitted(out, k, CollapsePrefix(out, k))
  {
  }

  /** The first pass of normalize_token over s[i..j + 1]: letters and digits lowercased, apostrophes kept, anything else a space. */
  method MapSpan(s: string, i: nat, j: nat) returns (out: string)
    requires i <= j < |s|
    ensures out == MapRange(s, i, j - i + 1)
  {
    out := [];
    var k := i;
    while k <= j
      invariant i <= k <= j + 1
      invariant out == MapRange(s, i, k - i)
    {
      var c := s[k];
      if IsWordChar(c) || c == '\'' {
        out := out + [ToLower(c)];
      } else {
        out := out + [' '];
      }
      k := k + 1;
    }
  }

  /**
   * The second pass of normalize_token over the intermediate string `out`:
   * letters and digits are copied, an apostrophe is copied only between two
   * letters or digits, and a separator becomes one space unless the result is
   * empty or already ends with a space.
   */
  method Collapse(out: string) returns (cleaned: string)
    ensures cleaned == CollapsePrefix(out, |out|)
    ensures IsIntermediate(out) ==> IsNormalized(cleaned)
  {
    cleaned := [];
    var prevAlnum := false;
    var k := 0;
    while k < |out|
      invariant 0 <= k <= |out|
      invariant cleaned == CollapsePrefix(out, k)
      invariant prevAlnum == (0 < k && IsWordChar(out[k - 1]))
    {
      var c := out[k];
      CollapseUnfold(out, k);
      if IsWordChar(c) {
        assert Emitted(out, k, cleaned) == [c];
        cleaned := cleaned + [c];
        prevAlnum := true;
      } else if c == '\'' {
        var leftOk := prevAlnum;
        var rightOk := k + 1 < |out| && IsWordChar(out[k + 1]);
        assert Emitted(out, k, cleaned) == if leftOk && rightOk then [c] else [];
        if leftOk && rightOk {
          cleaned := cleaned + [c];
        }
        prevAlnum := false;
      } else {
        assert Emitted(out, k, cleaned) == if |cleaned| > 0 && cleaned[|cleaned| - 1] != ' ' then [' '] else [];
        if |cleaned| > 0 && cleaned[|cleaned| - 1] != ' ' {
          cleaned := cleaned + [' '];
        }
        prevAlnum := false;
      }
      k := k + 1;
    }
    if IsIntermediate(out) {
      CollapseShape(out);
    }
  }

  /** normalize_token: trim to the first and last letter or digit, map, then collapse. */
  method NormalizeToken(s: string) returns (cleaned: string)
    ensures cleaned == Normalize(s)
    ensures IsNormalized(cleaned)
  {
    var n := |s|;
    var i, j := 0, if n > 0 then n - 1 else 0;
    while i < n && !IsWordChar(s[i])
      invariant 0 <= i <= n
      invariant SkipLeading(s, i) == SkipLeading(s, 0)
    {
      i := i + 1;
    }
    if i == n {
      return [];
    }
    while j > i && !IsWordChar(s[j])
      invariant i <= j < n
      invariant SkipTrailing(s, i, j) == SkipTrailing(s, i, n - 1)
    {
      j := j - 1;
    }

    IntermediateIs(s, i, j);
    var out := MapSpan(s, i, j);
    cleaned := Collapse(out);
  }
}

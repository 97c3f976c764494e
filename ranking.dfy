/**
 * print_top_k without the printing: the (word, count) pairs of the map are
 * put into a vector, sorted by count descending and, for equal counts, by
 * word ascending (std::string's operator<), and the first min(k, size) of
 * them are what gets printed. IsTopK is the reference definition of that
 * output; TopKUnique shows that it leaves no choice, so the output depends
 * only on the map and k, not on the map's iteration order or on the sort.
 */
module Ranking {
  import opened CountMaps

  /** One element of the vector: pair<string, uint32_t>. */
  datatype Entry = Entry(word: string, count: nat)

  function Min(a: nat, b: nat): nat {
    if a < b then a else b
  }

  /** std::string's operator<: the first differing char decides, and a proper prefix comes first. */
  function LexLess(a: string, b: string): (r: bool)
    ensures r ==> |b| > 0
    ensures |a| < |b| && a == b[..|a|] ==> r
  {
    if |a| == 0 then |b| > 0
    else if |b| == 0 then false
    else if a[0] != b[0] then a[0] < b[0]
    else
      assert |a| < |b| && a == b[..|a|] ==> a[1..] == b[1..][..|a| - 1];
      LexLess(a[1..], b[1..])
  }

  /** The sort's comparator: a higher count first, and for equal counts the smaller word first. */
  function Before(x: Entry, y: Entry): (r: bool)
    ensures x.count != y.count ==> (r <==> x.count > y.count)
    ensures r ==> x.count >= y.count
  {
    x.count > y.count || (x.count == y.count && LexLess(x.word, y.word))
  }

  /** x may stand before y in a sorted vector. */
  predicate InOrder(x: Entry, y: Entry) {
    !Before(y, x)
  }

  /** Every pair of entries stands in order. */
  predicate Sorted(s: seq<Entry>) {
    forall p, q :: 0 <= p < q < |s| ==> InOrder(s[p], s[q])
  }

  /** The words of a sequence of entries. */
  function Words(s: seq<Entry>): set<string> {
    set i | 0 <= i < |s| :: s[i].word
  }

  /**
   * top is what print_top_k prints for counts and k: min(k, size) entries,
   * each a word of the map with its count, strictly in the comparator's
   * order, and every word left out ranks after every word printed.
   */
  predicate IsTopK(counts: CountMap, k: nat, top: seq<Entry>) {
    && |top| == Min(k, |counts|)
    && (forall i :: 0 <= i < |top| ==> top[i].word in counts && top[i].count == counts[top[i].word])
    && (forall i, j :: 0 <= i < j < |top| ==> Before(top[i], top[j]))
    && (forall w, i :: w in counts && w !in Words(top) && 0 <= i < |top| ==> Before(top[i], Entry(w, counts[w])))
  }

  /** vec holds every (word, count) pair of the map once, in some order. */
  predicate IsEntryList(vec: seq<Entry>, counts: CountMap) {
    && |vec| == |counts|
    && (forall i :: 0 <= i < |vec| ==> vec[i].word in counts && vec[i].count == counts[vec[i].word])
    && (forall i, j :: 0 <= i < j < |vec| ==> vec[i].word != vec[j].word)
    && (forall w :: w in counts ==> exists i :: 0 <= i < |vec| && vec[i].word == w)
  }

  // ---------------------------------------------------------------------------
  // The comparator is a strict total order
  // ---------------------------------------------------------------------------

  lemma {:induction false} LexLessIrreflexive(a: string)
    ensures !LexLess(a, a)
  {
    if |a| > 0 {
      LexLessIrreflexive(a[1..]);
    }
  }

  lemma {:induction false} LexLessTransitive(a: string, b: string, c: string)
    requires LexLess(a, b) && LexLess(b, c)
    ensures LexLess(a, c)
  {
    if |a| > 0 && a[0] == b[0] && b[0] == c[0] {
      LexLessTransitive(a[1..], b[1..], c[1..]);
    }
  }

  /** Two sequences that agree on their first element and on the rest are equal. */
  lemma ConsEqual<T>(a: seq<T>, b: seq<T>)
    requires |a| > 0 && |b| > 0 && a[0] == b[0] && a[1..] == b[1..]
    ensures a == b
  {
    assert a == [a[0]] + a[1..];
    assert b == [b[0]] + b[1..];
  }

  lemma {:induction false} LexLessTotal(a: string, b: string)
    requires a != b
    ensures LexLess(a, b) || LexLess(b, a)
  {
    if |a| > 0 && |b| > 0 && a[0] == b[0] {
      if a[1..] == b[1..] {
        ConsEqual(a, b);
      }
      LexLessTotal(a[1..], b[1..]);
    }
  }

  /** The comparator never puts an entry before itself. */
  lemma BeforeIrreflexive(x: Entry)
    ensures !Before(x, x)
  {
    LexLessIrreflexive(x.word);
  }

  lemma BeforeTransitive(x: Entry, y: Entry, z: Entry)
    requires Before(x, y) && Before(y, z)
    ensures Before(x, z)
  {
    if x.count == y.count == z.count {
      LexLessTransitive(x.word, y.word, z.word);
    }
  }

  lemma BeforeTotal(x: Entry, y: Entry)
    requires x != y
    ensures Before(x, y) || Before(y, x)
  {
    if x.count == y.count {
      LexLessTotal(x.word, y.word);
    }
  }

  /** Standing in order is transitive, which is what lets a sort compare neighbours only. */
  lemma InOrderTransitive(x: Entry, y: Entry, z: Entry)
    requires InOrder(x, y) && InOrder(y, z)
    ensures InOrder(x, z)
  {
    if Before(z, x) {
      if x != y {
        BeforeTotal(x, y);
      }
      if y != z {
        BeforeTotal(y, z);
      }
      if x != y && y != z {
        BeforeTransitive(x, y, z);
        BeforeTransitive(x, z, x);
      }
      BeforeIrreflexive(x);
    }
  }

  // ---------------------------------------------------------------------------
  // What the ranked output looks like
  // ---------------------------------------------------------------------------

  /**
   * The guarantees of the printed list: counts never increase, equal counts
   * come in ascending word order, no word is printed twice, and k = 0
   * prints nothing.
   */
  lemma TopKShape(counts: CountMap, k: nat, top: seq<Entry>)
    requires IsTopK(counts, k, top)
    ensures forall i, j :: 0 <= i < j < |top| ==> top[i].count >= top[j].count
    ensures forall i, j :: 0 <= i < j < |top| && top[i].count == top[j].count ==> LexLess(top[i].word, top[j].word)
    ensures forall i, j :: 0 <= i < j < |top| ==> top[i].word != top[j].word
    ensures k == 0 ==> |top| == 0
  {
    forall i, j | 0 <= i < j < |top| ensures top[i].word != top[j].word {
      if top[i].word == top[j].word {
        assert top[i] == top[j];
        BeforeIrreflexive(top[i]);
      }
    }
  }

  /** The first entry printed is one no other word of the map ranks before. */
  lemma TopKFirst(counts: CountMap, k: nat, top: seq<Entry>, w: string)
    requires IsTopK(counts, k, top) && |top| > 0
    requires w in counts && w != top[0].word
    ensures Before(top[0], Entry(w, counts[w]))
  {
    if w in Words(top) {
      var j :| 0 <= j < |top| && top[j].word == w;
    }
  }

  /** Dropping the first entry printed leaves the ranking of the rest of the map for k - 1. */
  lemma TopKRest(counts: CountMap, k: nat, top: seq<Entry>)
    requires IsTopK(counts, k, top) && |top| > 0
    ensures IsTopK(counts - {top[0].word}, k - 1, top[1..])
  {
    var w0 := top[0].word;
    var rest, tail := counts - {w0}, top[1..];
    assert |rest| == |counts| - 1;
    forall i | 0 <= i < |tail| ensures tail[i].word in rest && tail[i].count == rest[tail[i].word] {
      assert Before(top[0], top[i + 1]);
      if tail[i].word == w0 {
        assert tail[i] == top[0];
        BeforeIrreflexive(top[0]);
      }
    }
    forall w, i | w in rest && w !in Words(tail) && 0 <= i < |tail| ensures Before(tail[i], Entry(w, rest[w])) {
      assert top[i + 1] == tail[i];
    }
  }

  /** Two rankings of one map for one k start with the same entry. */
  lemma TopKSameFirst(counts: CountMap, k: nat, a: seq<Entry>, b: seq<Entry>)
    requires IsTopK(counts, k, a) && IsTopK(counts, k, b) && |a| > 0
    ensures a[0] == b[0]
  {
    if a[0] != b[0] {
      TopKFirst(counts, k, a, b[0].word);
      TopKFirst(counts, k, b, a[0].word);
      BeforeTransitive(a[0], b[0], a[0]);
      BeforeIrreflexive(a[0]);
    }
  }

  /** The ranking leaves no choice: for one map and one k there is one printed list. */
  lemma {:induction false} TopKUnique(counts: CountMap, k: nat, a: seq<Entry>, b: seq<Entry>)
    requires IsTopK(counts, k, a) && IsTopK(counts, k, b)
    ensures a == b
    decreases |a|
  {
    if |a| > 0 {
      TopKSameFirst(counts, k, a, b);
      TopKRest(counts, k, a);
      TopKRest(counts, k, b);
      TopKUnique(counts - {a[0].word}, k - 1, a[1..], b[1..]);
      ConsEqual(a, b);
    }
  }

  // ---------------------------------------------------------------------------
  // A sorted permutation of the entries, truncated, is the ranking
  // ---------------------------------------------------------------------------

  /** In a sequence without repeats, nothing occurs twice. */
  lemma {:induction false} NoRepeatOnce<T>(s: seq<T>, x: T)
    requires forall i, j :: 0 <= i < j < |s| ==> s[i] != s[j]
    ensures multiset(s)[x] <= 1
  {
    if |s| > 0 {
      var init := s[..|s| - 1];
      assert s == init + [s[|s| - 1]];
      NoRepeatOnce(init, x);
      if x == s[|s| - 1] {
        assert x !in init;
      }
    }
  }

  /** An element at two places occurs twice. */
  lemma RepeatTwice<T>(s: seq<T>, i: nat, j: nat)
    requires i < j < |s| && s[i] == s[j]
    ensures multiset(s)[s[i]] >= 2
  {
    var pre := s[..j];
    assert s == pre + [s[j]] + s[j + 1..];
    assert s[i] in pre;
  }

  /** A permutation of a sequence without repeats has no repeats. */
  lemma PermutationNoRepeat<T>(s: seq<T>, t: seq<T>)
    requires multiset(s) == multiset(t)
    requires forall i, j :: 0 <= i < j < |s| ==> s[i] != s[j]
    ensures forall i, j :: 0 <= i < j < |t| ==> t[i] != t[j]
  {
    forall i, j | 0 <= i < j < |t| ensures t[i] != t[j] {
      if t[i] == t[j] {
        RepeatTwice(t, i, j);
        NoRepeatOnce(s, t[i]);
      }
    }
  }

  /** A permutation of the entries of the map holds them all, once each. */
  lemma PermutationIsEntryList(counts: CountMap, vec: seq<Entry>, sorted: seq<Entry>)
    requires IsEntryList(vec, counts)
    requires multiset(sorted) == multiset(vec)
    ensures IsEntryList(sorted, counts)
  {
    assert |sorted| == |vec| by {
      assert |multiset(sorted)| == |multiset(vec)|;
    }
    forall i | 0 <= i < |sorted| ensures sorted[i].word in counts && sorted[i].count == counts[sorted[i].word] {
      assert sorted[i] in multiset(vec);
    }
    assert forall i, j :: 0 <= i < j < |vec| ==> vec[i] != vec[j];
    PermutationNoRepeat(vec, sorted);
    forall w | w in counts ensures exists p :: 0 <= p < |sorted| && sorted[p].word == w {
      var v :| 0 <= v < |vec| && vec[v].word == w;
      assert vec[v] in multiset(sorted);
    }
  }

  /** The first n entries of a sorted list of the map's entries are strictly in order ... */
  lemma SortedPrefixOrdered(counts: CountMap, sorted: seq<Entry>, n: nat)
    requires IsEntryList(sorted, counts) && Sorted(sorted) && n <= |sorted|
    ensures forall i, j :: 0 <= i < j < n ==> Before(sorted[i], sorted[j])
  {
    forall i, j | 0 <= i < j < n ensures Before(sorted[i], sorted[j]) {
      BeforeTotal(sorted[i], sorted[j]);
    }
  }

  /** ... and every word after them ranks after each of them. */
  lemma SortedPrefixComplete(counts: CountMap, sorted: seq<Entry>, n: nat)
    requires IsEntryList(sorted, counts) && Sorted(sorted) && n <= |sorted|
    ensures forall w, i :: w in counts && w !in Words(sorted[..n]) && 0 <= i < n ==> Before(sorted[i], Entry(w, counts[w]))
  {
    var top := sorted[..n];
    forall q | 0 <= q < n ensures sorted[q].word in Words(top) {
      assert top[q] == sorted[q];
    }
    forall w, i | w in counts && w !in Words(top) && 0 <= i < n ensures Before(sorted[i], Entry(w, counts[w])) {
      var p :| 0 <= p < |sorted| && sorted[p].word == w;
      assert p >= n;
      BeforeTotal(sorted[i], sorted[p]);
    }
  }

  /** The entries of the map, sorted and cut after min(k, size) entries, are its ranking. */
  lemma SortedPrefixIsTopK(counts: CountMap, k: nat, sorted: seq<Entry>)
    requires IsEntryList(sorted, counts) && Sorted(sorted)
    ensures IsTopK(counts, k, sorted[..Min(k, |sorted|)])
  {
    var n := Min(k, |sorted|);
    var top := sorted[..n];
    SortedPrefixOrdered(counts, sorted, n);
    SortedPrefixComplete(counts, sorted, n);
    assert forall i :: 0 <= i < n ==> top[i] == sorted[i];
  }

  // ---------------------------------------------------------------------------
  // The algorithm
  // ---------------------------------------------------------------------------

  /** The fill loop so far: one entry for each word of the map that is no longer in rest. */
  predicate FilledSoFar(vec: seq<Entry>, counts: CountMap, rest: set<string>) {
    && rest <= counts.Keys
    && |vec| + |rest| == |counts|
    && (forall i :: 0 <= i < |vec| ==> vec[i].word in counts && vec[i].word !in rest && vec[i].count == counts[vec[i].word])
    && (forall i, j :: 0 <= i < j < |vec| ==> vec[i].word != vec[j].word)
    && (forall w :: w in counts && w !in rest ==> exists i :: 0 <= i < |vec| && vec[i].word == w)
  }

  /** One more word taken out of rest and appended with its count. */
  lemma FillStep(vec: seq<Entry>, counts: CountMap, rest: set<string>, w: string)
    requires FilledSoFar(vec, counts, rest) && w in rest
    ensures FilledSoFar(vec + [Entry(w, counts[w])], counts, rest - {w})
  {
    var next := vec + [Entry(w, counts[w])];
    forall v | v in counts && v !in rest - {w} ensures exists i :: 0 <= i < |next| && next[i].word == v {
      if v == w {
        assert next[|vec|].word == v;
      } else {
        var i :| 0 <= i < |vec| && vec[i].word == v;
        assert next[i] == vec[i];
      }
    }
  }

  /** The fill loop: one entry for each (word, count) of the map, in the map's iteration order. */
  method EntriesOf(counts: CountMap) returns (vec: seq<Entry>)
    ensures IsEntryList(vec, counts)
  {
    vec := [];
    var rest := counts.Keys;
    while rest != {}
      invariant FilledSoFar(vec, counts, rest)
      decreases |rest|
    {
      var w :| w in rest;
      FillStep(vec, counts, rest, w);
      vec := vec + [Entry(w, counts[w])];
      rest := rest - {w};
    }
  }

  /** Exchanges two elements of the array. */
  method Swap(a: array<Entry>, i: nat, j: nat)
    requires i < j < a.Length
    modifies a
    ensures a[..] == old(a[..])[i := old(a[j])][j := old(a[i])]
    ensures multiset(a[..]) == old(multiset(a[..]))
  {
    a[i], a[j] := a[j], a[i];
  }

  /**
   * Sorts the vector in place with the comparator (an insertion sort: the
   * sort algorithm is not what the output depends on, see TopKUnique).
   */
  method SortEntries(a: array<Entry>)
    modifies a
    ensures Sorted(a[..])
    ensures multiset(a[..]) == old(multiset(a[..]))
  {
    var i := 0;
    while i < a.Length
      invariant 0 <= i <= a.Length
      invariant forall p, q :: 0 <= p < q < i ==> InOrder(a[p], a[q])
      invariant multiset(a[..]) == old(multiset(a[..]))
    {
      InsertLast(a, i);
      i := i + 1;
    }
  }

  /** The inner loop: moves a[i] left past the entries it comes before, so that a[..i + 1] is sorted. */
  method InsertLast(a: array<Entry>, i: nat)
    requires i < a.Length
    requires forall p, q :: 0 <= p < q < i ==> InOrder(a[p], a[q])
    modifies a
    ensures forall p, q :: 0 <= p < q <= i ==> InOrder(a[p], a[q])
    ensures multiset(a[..]) == old(multiset(a[..]))
    ensures a[i + 1..] == old(a[i + 1..])
  {
    var j := i;
    while j > 0 && Before(a[j], a[j - 1])
      invariant 0 <= j <= i
      invariant forall p, q :: 0 <= p < q <= i && p != j && q != j ==> InOrder(a[p], a[q])
      invariant forall q :: j < q <= i ==> Before(a[j], a[q])
      invariant multiset(a[..]) == old(multiset(a[..]))
      invariant a[i + 1..] == old(a[i + 1..])
    {
      Swap(a, j - 1, j);
      j := j - 1;
    }
    forall p, q | 0 <= p < q <= i ensures InOrder(a[p], a[q]) {
      if q == j {
        assert InOrder(a[j - 1], a[j]);
        if p < j - 1 {
          InOrderTransitive(a[p], a[j - 1], a[j]);
        }
      } else if p == j {
        assert Before(a[j], a[q]);
        if Before(a[q], a[j]) {
          BeforeTransitive(a[j], a[q], a[j]);
          BeforeIrreflexive(a[j]);
        }
      } else {
        assert InOrder(a[p], a[q]);
      }
    }
  }

  /** print_top_k without the output: the entries that would be printed, in order. */
  method TopK(counts: CountMap, k: nat) returns (top: seq<Entry>)
    ensures IsTopK(counts, k, top)
  {
    var vec := EntriesOf(counts);
    var a := new Entry[|vec|](i requires 0 <= i < |vec| => vec[i]);
    assert a[..] == vec;
    SortEntries(a);
    var limit := Min(k, a.Length);
    top := a[..limit];
    PermutationIsEntryList(counts, vec, a[..]);
    SortedPrefixIsTopK(counts, k, a[..]);
  }
}

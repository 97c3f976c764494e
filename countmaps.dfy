/**
 * Word-count maps (the CountMap of both programs, an unordered_map from a
 * token to its count) and the reference definitions the counting loops are
 * proved against: Occurrences, how often a token occurs in a sequence; Tally,
 * the count of every token in a sequence of tokens; Merge, the per-key sum of
 * two maps; MergeAll, the per-key sum of a sequence of maps; SumValues, the
 * sum of all counts.
 */
module CountMaps {

  /** Counts of tokens of any type: a token's count is how often it has been seen. */
  type Counts<T> = map<T, nat>

  /** The counts of a program's words. */
  type CountMap = Counts<string>

  /** counts[w] read without inserting: a missing word has count 0. */
  function Get<T>(m: Counts<T>, w: T): nat {
    if w in m then m[w] else 0
  }

  /** ++counts[w]: a missing word is first inserted with count 0, then incremented. */
  function Inc<T>(m: Counts<T>, w: T): Counts<T>
  {
    m[w := Get(m, w) + 1]
  }

  /** How often w occurs in ts. */
  function Occurrences<T(==)>(ts: seq<T>, w: T): nat {
    if |ts| == 0 then 0 else Occurrences(ts[..|ts| - 1], w) + (if ts[|ts| - 1] == w then 1 else 0)
  }

  /** Every count of the map is at least one: the maps that counting builds. */
  predicate Positive<T>(m: Counts<T>) {
    forall w :: w in m ==> m[w] > 0
  }

  /** The counts of a token sequence, counted one token after another from an empty map. */
  function Tally<T>(ts: seq<T>): Counts<T> {
    if |ts| == 0 then map[] else Inc(Tally(ts[..|ts| - 1]), ts[|ts| - 1])
  }

  /** global[key] += value for every (key, value) of local. */
  function Merge<T>(g: Counts<T>, l: Counts<T>): Counts<T> {
    map w | w in g.Keys + l.Keys :: Get(g, w) + Get(l, w)
  }

  /** The local maps merged one after another into an initially empty global map. */
  function MergeAll<T>(ls: seq<Counts<T>>): Counts<T> {
    if |ls| == 0 then map[] else Merge(MergeAll(ls[..|ls| - 1]), ls[|ls| - 1])
  }

  /** The sum of w's counts over all the maps. */
  function SumAt<T>(ls: seq<Counts<T>>, w: T): nat {
    if |ls| == 0 then 0 else SumAt(ls[..|ls| - 1], w) + Get(ls[|ls| - 1], w)
  }

  /** The sum of all the counts of a map. */
  ghost function SumValues<T>(m: Counts<T>): nat
    decreases |m|
  {
    if m == map[] then 0 else
      var w :| w in m;
      m[w] + SumValues(m - {w})
  }

  // ---------------------------------------------------------------------------
  // One increment, one merge
  // ---------------------------------------------------------------------------

  /** ++counts[w] adds w to the words if missing, raises its count by one and leaves every other count alone. */
  lemma IncAt<T>(m: Counts<T>, w: T, u: T)
    ensures (Inc(m, w)).Keys == m.Keys + {w}
    ensures Get(Inc(m, w), u) == Get(m, u) + (if u == w then 1 else 0)
  {
  }

  /** After the merge, a word is present when either map has it, with the sum of its two counts. */
  lemma MergeAt<T>(g: Counts<T>, l: Counts<T>, u: T)
    ensures (Merge(g, l)).Keys == g.Keys + l.Keys
    ensures Get(Merge(g, l), u) == Get(g, u) + Get(l, u)
  {
  }

  // ---------------------------------------------------------------------------
  // Tally
  // ---------------------------------------------------------------------------

  /** Counting one more token is one ++counts[w]. */
  lemma TallySnoc<T>(ts: seq<T>, w: T)
    ensures Tally(ts + [w]) == Inc(Tally(ts), w)
  {
    assert (ts + [w])[..|ts|] == ts;
  }

  /** Counting one more token after the tokens counted so far. */
  lemma TallyExtend<T>(before: seq<T>, emitted: seq<T>, w: T)
    ensures Tally(before + (emitted + [w])) == Inc(Tally(before + emitted), w)
  {
    assert before + (emitted + [w]) == (before + emitted) + [w];
    TallySnoc(before + emitted, w);
  }

  /** The occurrences in two sequences one after the other add up. */
  lemma {:induction false} OccurrencesAppend<T>(a: seq<T>, b: seq<T>, w: T)
    ensures Occurrences(a + b, w) == Occurrences(a, w) + Occurrences(b, w)
  {
    if |b| == 0 {
      assert a + b == a;
    } else {
      var init := b[..|b| - 1];
      assert (a + b)[..|a + b| - 1] == a + init;
      OccurrencesAppend(a, init, w);
    }
  }

  /** Occurrences is the multiplicity of w in the multiset of ts. */
  lemma {:induction false} OccurrencesMultiset<T>(ts: seq<T>, w: T)
    ensures Occurrences(ts, w) == multiset(ts)[w]
  {
    if |ts| > 0 {
      var init := ts[..|ts| - 1];
      assert ts == init + [ts[|ts| - 1]];
      OccurrencesMultiset(init, w);
    }
  }

  /** The keys are the tokens that occur, and each count is the token's number of occurrences. */
  lemma {:induction false} TallyCounts<T>(ts: seq<T>)
    ensures forall w :: w in Tally(ts) <==> w in ts
    ensures forall w :: Get(Tally(ts), w) == Occurrences(ts, w)
    ensures Positive(Tally(ts))
  {
    if |ts| > 0 {
      var init := ts[..|ts| - 1];
      assert ts == init + [ts[|ts| - 1]];
      TallyCounts(init);
    }
  }

  /** Two maps of positive counts that agree on every word's count are the same map. */
  lemma SameCounts<T>(a: Counts<T>, b: Counts<T>)
    requires Positive(a) && Positive(b)
    requires forall w :: Get(a, w) == Get(b, w)
    ensures a == b
  {
    assert a.Keys == b.Keys by {
      forall w ensures w in a <==> w in b {
        assert Get(a, w) == Get(b, w);
      }
    }
    forall w | w in a ensures a[w] == b[w] {
      assert Get(a, w) == Get(b, w);
    }
  }

  /** Counts only depend on how often each token occurs, not on the order of the tokens. */
  lemma TallyPermutation<T>(a: seq<T>, b: seq<T>)
    requires multiset(a) == multiset(b)
    ensures Tally(a) == Tally(b)
  {
    TallyCounts(a);
    TallyCounts(b);
    forall w ensures Get(Tally(a), w) == Get(Tally(b), w) {
      OccurrencesMultiset(a, w);
      OccurrencesMultiset(b, w);
    }
    SameCounts(Tally(a), Tally(b));
  }

  // ---------------------------------------------------------------------------
  // Merge
  // ---------------------------------------------------------------------------

  /** Merging two maps of positive counts gives positive counts. */
  lemma MergePositive<T>(g: Counts<T>, l: Counts<T>)
    requires Positive(g) && Positive(l)
    ensures Positive(Merge(g, l))
  {
  }

  /** Merging the counts of two token sequences gives the counts of the two one after the other. */
  lemma MergeTally<T>(a: seq<T>, b: seq<T>)
    ensures Merge(Tally(a), Tally(b)) == Tally(a + b)
  {
    TallyCounts(a);
    TallyCounts(b);
    TallyCounts(a + b);
    MergePositive(Tally(a), Tally(b));
    forall w ensures Get(Merge(Tally(a), Tally(b)), w) == Get(Tally(a + b), w) {
      OccurrencesAppend(a, b, w);
    }
    SameCounts(Merge(Tally(a), Tally(b)), Tally(a + b));
  }

  /** Merging maps of positive counts one after another gives positive counts. */
  lemma {:induction false} MergeAllPositive<T>(ls: seq<Counts<T>>)
    requires forall t :: 0 <= t < |ls| ==> Positive(ls[t])
    ensures Positive(MergeAll(ls))
  {
    if |ls| > 0 {
      var init := ls[..|ls| - 1];
      assert forall t :: 0 <= t < |init| ==> init[t] == ls[t];
      MergeAllPositive(init);
      MergePositive(MergeAll(init), ls[|ls| - 1]);
    }
  }

  /** After merging, each word's count is the sum of its local counts. */
  lemma {:induction false} MergeAllSums<T>(ls: seq<Counts<T>>, w: T)
    ensures Get(MergeAll(ls), w) == SumAt(ls, w)
  {
    if |ls| > 0 {
      MergeAllSums(ls[..|ls| - 1], w);
    }
  }

  /** A word is a key of the merged map exactly when it is a key of some local map. */
  lemma {:induction false} MergeAllKeys<T>(ls: seq<Counts<T>>, w: T)
    ensures w in MergeAll(ls) <==> exists t :: 0 <= t < |ls| && w in ls[t]
  {
    if |ls| > 0 {
      var init := ls[..|ls| - 1];
      MergeAllKeys(init, w);
      if w in MergeAll(ls) && w !in ls[|ls| - 1] {
        var t :| 0 <= t < |init| && w in init[t];
        assert ls[t] == init[t];
      }
      if exists t :: 0 <= t < |ls| && w in ls[t] {
        var t :| 0 <= t < |ls| && w in ls[t];
        if t < |init| {
          assert init[t] == ls[t];
        }
      }
    }
  }

  // ---------------------------------------------------------------------------
  // SumValues
  // ---------------------------------------------------------------------------

  /** SumValues may take out any key first. */
  lemma SumValuesRemove<T>(m: Counts<T>, w: T)
    requires w in m
    ensures SumValues(m) == m[w] + SumValues(m - {w})
    decreases |m|
  {
    var v :| v in m && SumValues(m) == m[v] + SumValues(m - {v});
    if v != w {
      SumValuesRemove(m - {v}, w);
      SumValuesRemove(m - {w}, v);
      assert m - {v} - {w} == m - {w} - {v};
    }
  }

  /** One ++counts[w] adds one to the sum of the counts. */
  lemma SumValuesInc<T>(m: Counts<T>, w: T)
    ensures SumValues(Inc(m, w)) == SumValues(m) + 1
  {
    var r := Inc(m, w);
    SumValuesRemove(r, w);
    if w in m {
      SumValuesRemove(m, w);
      assert r - {w} == m - {w};
    } else {
      assert r - {w} == m;
    }
  }

  /** The counts of a token sequence add up to its length. */
  lemma {:induction false} TallySum<T>(ts: seq<T>)
    ensures SumValues(Tally(ts)) == |ts|
  {
    if |ts| == 0 {
      assert Tally(ts) == map[];
    } else {
      var init, w := ts[..|ts| - 1], ts[|ts| - 1];
      assert ts == init + [w];
      TallySum(init);
      TallySnoc(init, w);
      SumValuesInc(Tally(init), w);
    }
  }
}

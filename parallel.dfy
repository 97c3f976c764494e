/**
 * count_words_parallel: the lines are shared out among nthreads workers,
 * each worker tokenises its own lines into a private map and a private total,
 * adds its total to the shared one, and the private maps are merged one after
 * another into a global map. The OpenMP schedule is a parameter: owner[i] is
 * the worker that handles line i, and any such assignment is allowed, so the
 * results hold for every way the dynamic schedule can hand out the lines.
 * The workers share nothing but the total, so they are run one after another.
 */
module ParallelCount {
  import opened Tokenizer
  import opened CountMaps
  import opened SequentialCount

  /** Every line goes to one of the workers 0 .. nthreads - 1. */
  predicate IsSchedule(owner: seq<nat>, n: nat, nthreads: nat) {
    |owner| == n && forall i :: 0 <= i < n ==> owner[i] < nthreads
  }

  /** The tokens worker tid counts among the first n lines: those of the lines it owns, in order. */
  function Owned<T>(tss: seq<seq<T>>, owner: seq<nat>, tid: nat, n: nat): seq<T>
    requires n <= |tss| == |owner|
  {
    if n == 0 then [] else Owned(tss, owner, tid, n - 1) + (if owner[n - 1] == tid then tss[n - 1] else [])
  }

  /** How often w occurs among the tokens of workers 0 .. p - 1 for the first n lines. */
  function WorkersOccurrences<T(==)>(tss: seq<seq<T>>, owner: seq<nat>, p: nat, n: nat, w: T): nat
    requires n <= |tss| == |owner|
  {
    if p == 0 then 0 else WorkersOccurrences(tss, owner, p - 1, n, w) + Occurrences(Owned(tss, owner, p - 1, n), w)
  }

  /** How many tokens workers 0 .. p - 1 have for the first n lines. */
  function WorkersLength<T>(tss: seq<seq<T>>, owner: seq<nat>, p: nat, n: nat): nat
    requires n <= |tss| == |owner|
  {
    if p == 0 then 0 else WorkersLength(tss, owner, p - 1, n) + |Owned(tss, owner, p - 1, n)|
  }

  /** One more line: its tokens go to worker tid when tid owns it. */
  lemma OwnedStep<T>(tss: seq<seq<T>>, owner: seq<nat>, tid: nat, n: nat)
    requires n < |tss| == |owner|
    ensures Owned(tss, owner, tid, n + 1) == Owned(tss, owner, tid, n) + (if owner[n] == tid then tss[n] else [])
  {
  }

  // ---------------------------------------------------------------------------
  // The schedule partitions the token stream
  // ---------------------------------------------------------------------------

  /** One more line adds its occurrences of w to worker tid's, when tid owns it. */
  lemma OwnedOccurrencesStep<T>(tss: seq<seq<T>>, owner: seq<nat>, tid: nat, n: nat, w: T)
    requires n < |tss| == |owner|
    ensures Occurrences(Owned(tss, owner, tid, n + 1), w)
      == Occurrences(Owned(tss, owner, tid, n), w) + (if owner[n] == tid then Occurrences(tss[n], w) else 0)
  {
    OwnedStep(tss, owner, tid, n);
    if owner[n] == tid {
      OccurrencesAppend(Owned(tss, owner, tid, n), tss[n], w);
    } else {
      assert Owned(tss, owner, tid, n + 1) == Owned(tss, owner, tid, n);
    }
  }

  /** One more line adds its occurrences of w to the workers' together, when one of workers 0 .. p - 1 owns it. */
  lemma {:induction false} WorkersOccurrencesStep<T>(tss: seq<seq<T>>, owner: seq<nat>, p: nat, n: nat, w: T)
    requires n < |tss| == |owner|
    ensures WorkersOccurrences(tss, owner, p, n + 1, w)
      == WorkersOccurrences(tss, owner, p, n, w) + (if owner[n] < p then Occurrences(tss[n], w) else 0)
  {
    if p > 0 {
      WorkersOccurrencesStep(tss, owner, p - 1, n, w);
      OwnedOccurrencesStep(tss, owner, p - 1, n, w);
    }
  }

  /** One more line adds its tokens to the workers' together, when one of workers 0 .. p - 1 owns it. */
  lemma {:induction false} WorkersLengthStep<T>(tss: seq<seq<T>>, owner: seq<nat>, p: nat, n: nat)
    requires n < |tss| == |owner|
    ensures WorkersLength(tss, owner, p, n + 1) == WorkersLength(tss, owner, p, n) + (if owner[n] < p then |tss[n]| else 0)
  {
    if p > 0 {
      WorkersLengthStep(tss, owner, p - 1, n);
      OwnedStep(tss, owner, p - 1, n);
    }
  }

  /** Before the first line, no worker has seen w ... */
  lemma {:induction false} WorkersOccurrencesNone<T>(tss: seq<seq<T>>, owner: seq<nat>, p: nat, w: T)
    requires |tss| == |owner|
    ensures WorkersOccurrences(tss, owner, p, 0, w) == 0
  {
    if p > 0 {
      WorkersOccurrencesNone(tss, owner, p - 1, w);
    }
  }

  /** ... nor any token. */
  lemma {:induction false} WorkersLengthNone<T>(tss: seq<seq<T>>, owner: seq<nat>, p: nat)
    requires |tss| == |owner|
    ensures WorkersLength(tss, owner, p, 0) == 0
  {
    if p > 0 {
      WorkersLengthNone(tss, owner, p - 1);
    }
  }

  /** One more line adds its occurrences of w to those of the stream. */
  lemma ConcatOccurrences<T>(tss: seq<seq<T>>, m: nat, w: T)
    requires m < |tss|
    ensures Occurrences(Concat(tss, m + 1), w) == Occurrences(Concat(tss, m), w) + Occurrences(tss[m], w)
  {
    assert Concat(tss, m + 1) == Concat(tss, m) + tss[m];
    OccurrencesAppend(Concat(tss, m), tss[m], w);
  }

  /**
   * When every line has an owner among workers 0 .. p - 1, the workers
   * together have each word exactly as often as the stream has it.
   */
  lemma {:induction false} PartitionOccurrences<T>(tss: seq<seq<T>>, owner: seq<nat>, p: nat, n: nat, w: T)
    requires n <= |tss| == |owner|
    requires forall i :: 0 <= i < n ==> owner[i] < p
    ensures WorkersOccurrences(tss, owner, p, n, w) == Occurrences(Concat(tss, n), w)
  {
    if n == 0 {
      WorkersOccurrencesNone(tss, owner, p, w);
    } else {
      var m := n - 1;
      PartitionOccurrences(tss, owner, p, m, w);
      assert owner[m] < p;
      WorkersOccurrencesStep(tss, owner, p, m, w);
      ConcatOccurrences(tss, m, w);
    }
  }

  /** ... and together they have as many tokens as the stream. */
  lemma {:induction false} PartitionLength<T>(tss: seq<seq<T>>, owner: seq<nat>, p: nat, n: nat)
    requires n <= |tss| == |owner|
    requires forall i :: 0 <= i < n ==> owner[i] < p
    ensures WorkersLength(tss, owner, p, n) == |Concat(tss, n)|
  {
    if n == 0 {
      WorkersLengthNone(tss, owner, p);
    } else {
      var m := n - 1;
      PartitionLength(tss, owner, p, m);
      assert owner[m] < p;
      WorkersLengthStep(tss, owner, p, m);
    }
  }

  /** The workers' local maps hold, word by word, the sum of the workers' occurrences. */
  lemma {:induction false} SumWorkers<T>(tss: seq<seq<T>>, owner: seq<nat>, ls: seq<Counts<T>>, w: T)
    requires |tss| == |owner|
    requires forall t :: 0 <= t < |ls| ==> ls[t] == Tally(Owned(tss, owner, t, |tss|))
    ensures SumAt(ls, w) == WorkersOccurrences(tss, owner, |ls|, |tss|, w)
  {
    if |ls| > 0 {
      var p := |ls| - 1;
      var init := ls[..p];
      assert forall t :: 0 <= t < p ==> init[t] == ls[t];
      SumWorkers(tss, owner, init, w);
      TallyCounts(Owned(tss, owner, p, |tss|));
    }
  }

  /**
   * The key property: whatever the schedule, merging the workers' local maps
   * gives the counts of the whole token stream, as the sequential count does.
   */
  lemma MergedIsSequential<T>(tss: seq<seq<T>>, owner: seq<nat>, ls: seq<Counts<T>>)
    requires IsSchedule(owner, |tss|, |ls|)
    requires forall t :: 0 <= t < |ls| ==> ls[t] == Tally(Owned(tss, owner, t, |tss|))
    ensures MergeAll(ls) == Tally(Concat(tss, |tss|))
  {
    var stream := Concat(tss, |tss|);
    TallyCounts(stream);
    forall t | 0 <= t < |ls| ensures Positive(ls[t]) {
      TallyCounts(Owned(tss, owner, t, |tss|));
    }
    MergeAllPositive(ls);
    forall w ensures Get(MergeAll(ls), w) == Get(Tally(stream), w) {
      MergeAllSums(ls, w);
      SumWorkers(tss, owner, ls, w);
      PartitionOccurrences(tss, owner, |ls|, |tss|, w);
    }
    SameCounts(MergeAll(ls), Tally(stream));
  }

  // ---------------------------------------------------------------------------
  // The algorithm
  // ---------------------------------------------------------------------------

  /** The range-for over one line's tokens: ++local[tok] and ++local_tokens for each. */
  method AddTokens(tokens: seq<string>, ghost before: seq<string>, local0: CountMap, n0: nat)
    returns (local: CountMap, n: nat)
    requires local0 == Tally(before) && n0 == |before|
    ensures local == Tally(before + tokens)
    ensures n == |before| + |tokens|
  {
    local, n := local0, n0;
    ghost var seen := before;
    var j := 0;
    while j < |tokens|
      invariant 0 <= j <= |tokens|
      invariant seen == before + tokens[..j]
      invariant local == Tally(seen) && n == |seen|
    {
      TallySnoc(seen, tokens[j]);
      assert tokens[..j + 1] == tokens[..j] + [tokens[j]];
      local := Inc(local, tokens[j]);
      n := n + 1;
      seen := seen + [tokens[j]];
      j := j + 1;
    }
    assert tokens[..j] == tokens;
  }

  /** The body of a worker's loop over its line i: tokenize_line, then count the tokens. */
  method CountOwnedLine(lines: seq<string>, ghost tss: seq<seq<string>>, i: nat, ghost before: seq<string>,
                        local0: CountMap, n0: nat)
    returns (local: CountMap, n: nat)
    requires TokensOfLines(lines, tss) && i < |lines|
    requires local0 == Tally(before) && n0 == |before|
    ensures local == Tally(before + tss[i])
    ensures n == |before| + |tss[i]|
  {
    var tokens := TokenizeLine(lines[i]);
    local, n := AddTokens(tokens, before, local0, n0);
  }

  /**
   * One worker's share of the parallel loop, given the tokens tss of each
   * line: it counts exactly the tokens of the lines it owns.
   */
  method WorkerCount(lines: seq<string>, ghost tss: seq<seq<string>>, owner: seq<nat>, tid: nat)
    returns (local: CountMap, localTokens: nat)
    requires TokensOfLines(lines, tss) && |owner| == |lines|
    ensures local == Tally(Owned(tss, owner, tid, |lines|))
    ensures localTokens == |Owned(tss, owner, tid, |lines|)|
  {
    ghost var seen: seq<string> := [];
    local, localTokens := map[], 0;
    var i := 0;
    while i < |lines|
      invariant 0 <= i <= |lines|
      invariant seen == Owned(tss, owner, tid, i)
      invariant local == Tally(seen) && localTokens == |seen|
    {
      OwnedStep(tss, owner, tid, i);
      if owner[i] == tid {
        local, localTokens := CountOwnedLine(lines, tss, i, seen, local, localTokens);
        seen := seen + tss[i];
      } else {
        assert seen + [] == seen;
      }
      i := i + 1;
    }
  }

  /** The parallel region: every worker counts its lines and adds its total to the shared one. */
  method RunWorkers(lines: seq<string>, ghost tss: seq<seq<string>>, nthreads: nat, owner: seq<nat>)
    returns (localCounts: seq<CountMap>, totalTokens: nat)
    requires TokensOfLines(lines, tss) && IsSchedule(owner, |lines|, nthreads)
    ensures |localCounts| == nthreads
    ensures forall t :: 0 <= t < nthreads ==> localCounts[t] == Tally(Owned(tss, owner, t, |lines|))
    ensures totalTokens == WorkersLength(tss, owner, nthreads, |lines|)
  {
    localCounts, totalTokens := [], 0;
    var tid := 0;
    while tid < nthreads
      invariant 0 <= tid <= nthreads
      invariant |localCounts| == tid
      invariant forall t :: 0 <= t < tid ==> localCounts[t] == Tally(Owned(tss, owner, t, |lines|))
      invariant totalTokens == WorkersLength(tss, owner, tid, |lines|)
    {
      var local, localTokens := WorkerCount(lines, tss, owner, tid);
      ghost var prev := localCounts;
      localCounts := localCounts + [local];
      forall t | 0 <= t <= tid ensures localCounts[t] == Tally(Owned(tss, owner, t, |lines|)) {
        if t < tid {
          assert localCounts[t] == prev[t];
        }
      }
      totalTokens := totalTokens + localTokens;
      tid := tid + 1;
    }
  }

  /** The entries of l whose keys are not in todo: the part of a local map merged so far. */
  function Except<T>(l: Counts<T>, todo: set<T>): Counts<T> {
    map w | w in l.Keys - todo :: l[w]
  }

  /** Before the merge loop, nothing of l has been added. */
  lemma MergeNothing<T>(g: Counts<T>, l: Counts<T>)
    ensures Merge(g, Except(l, l.Keys)) == g
  {
    var m := Merge(g, Except(l, l.Keys));
    assert m.Keys == g.Keys;
    forall w | w in m ensures m[w] == g[w] {
    }
  }

  /** Adding one more (key, value) of l to the merge so far. */
  lemma MergeOneMore<T>(g: Counts<T>, l: Counts<T>, todo: set<T>, w: T)
    requires w in l && w in todo
    ensures Merge(g, Except(l, todo - {w})) == Merge(g, Except(l, todo))[w := Get(Merge(g, Except(l, todo)), w) + l[w]]
  {
    var m0 := Merge(g, Except(l, todo));
    var m1 := Merge(g, Except(l, todo - {w}));
    var m2 := m0[w := Get(m0, w) + l[w]];
    assert m1.Keys == m2.Keys;
    forall v | v in m1 ensures m1[v] == m2[v] {
    }
  }

  /** After the loop, all of l has been added. */
  lemma ExceptNothing<T>(l: Counts<T>)
    ensures Except(l, {}) == l
  {
  }

  /** global[kv.first] += kv.second for every entry of one local map, taken in any order. */
  method MergeInto(global: CountMap, local: CountMap) returns (r: CountMap)
    ensures r == Merge(global, local)
  {
    r := global;
    var todo := local.Keys;
    MergeNothing(global, local);
    while todo != {}
      invariant todo <= local.Keys
      invariant r == Merge(global, Except(local, todo))
      decreases |todo|
    {
      var w :| w in todo;
      MergeOneMore(global, local, todo, w);
      r := r[w := Get(r, w) + local[w]];
      todo := todo - {w};
    }
    ExceptNothing(local);
  }

  /** The merge loop: the local maps merged one after another into an empty global map. */
  method MergeLocals(localCounts: seq<CountMap>) returns (global: CountMap)
    ensures global == MergeAll(localCounts)
  {
    global := map[];
    var t := 0;
    while t < |localCounts|
      invariant 0 <= t <= |localCounts|
      invariant global == MergeAll(localCounts[..t])
    {
      assert localCounts[..t + 1][..t] == localCounts[..t];
      global := MergeInto(global, localCounts[t]);
      t := t + 1;
    }
    assert localCounts[..t] == localCounts;
  }

  /**
   * count_words_parallel: for every schedule, the merged map and the total
   * are those of the sequential count of the same lines.
   */
  method CountWordsParallel(lines: seq<string>, nthreads: nat, owner: seq<nat>)
    returns (global: CountMap, totalTokens: nat)
    requires IsSchedule(owner, |lines|, nthreads)
    ensures global == Tally(Stream(lines))
    ensures totalTokens == |Stream(lines)|
    ensures forall w :: Get(global, w) == multiset(Stream(lines))[w]
    ensures forall w :: w in global ==> IsToken(w)
    ensures totalTokens == SumValues(global)
  {
    ghost var tss := PerLine(lines);
    PerLineTokens(lines);
    var localCounts;
    localCounts, totalTokens := RunWorkers(lines, tss, nthreads, owner);
    global := MergeLocals(localCounts);
    MergedIsSequential(tss, owner, localCounts);
    PartitionLength(tss, owner, nthreads, |lines|);
    StreamCounts(lines);
  }
}

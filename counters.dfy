/**
  The two counting maps of sigprofiler.py (`_counter`, `_cum_counter`, both
  `defaultdict(int)` keyed by call site) and what they hold after a run of
  samples.

  `Tally(h, f)` is the map obtained by starting from empty maps and, for
  every sample `s` of the history `h` in order, adding one to the count of
  every call site in `f(s)`. The self counter is the tally of the innermost
  call site, the cumulative counter the tally of `Chosen`.
*/
module Counters {
  import opened CallStack

  type Counts = map<CallSite, nat>

  /** A `defaultdict(int)` lookup: an absent key reads as zero. */
  function Count(m: Counts, k: CallSite): nat {
    if k in m then m[k] else 0
  }

  /** `m[k] += 1` on a `defaultdict(int)`: an absent key is inserted with
      count one, a present key gains one, no other key changes. */
  function Inc(m: Counts, k: CallSite): (r: Counts)
    ensures r.Keys == m.Keys + {k}
    ensures Count(r, k) == Count(m, k) + 1
    ensures forall j | j != k :: Count(r, j) == Count(m, j)
  {
    m[k := Count(m, k) + 1]
  }

  /** One increment of every key in `ks`. */
  function Bump(m: Counts, ks: set<CallSite>): Counts {
    map k | k in m.Keys + ks :: Count(m, k) + (if k in ks then 1 else 0)
  }

  /** What `Bump` does to each key: one more for the keys of `ks`, nothing
      for the others. */
  lemma BumpCounts(m: Counts, ks: set<CallSite>)
    ensures Bump(m, ks).Keys == m.Keys + ks
    ensures forall k :: Count(Bump(m, ks), k) == Count(m, k) + (if k in ks then 1 else 0)
  {
  }

  /** `sum(m.values())`: zero for an empty counter, and at least every
      single count. */
  ghost function SumValues(m: Counts): (r: nat)
    ensures m == map[] ==> r == 0
    ensures forall k | k in m :: m[k] <= r
    decreases |m|
  {
    if m == map[] then 0
    else
      assert exists k :: k in m by {
        assert m.Keys != {};
      }
      var k :| k in m;
      assert forall j | j in m - {k} :: (m - {k})[j] == m[j];
      m[k] + SumValues(m - {k})
  }

  /** The sum does not depend on the key `SumValues` happens to pick first. */
  lemma {:induction false} SumRemove(m: Counts, k: CallSite)
    requires k in m
    ensures SumValues(m) == m[k] + SumValues(m - {k})
    decreases |m|
  {
    var j :| j in m && SumValues(m) == m[j] + SumValues(m - {j});
    if j != k {
      SumRemove(m - {j}, k);
      SumRemove(m - {k}, j);
      assert (m - {j}) - {k} == (m - {k}) - {j};
    }
  }

  /** One increment raises the sum by one. */
  lemma SumInc(m: Counts, k: CallSite)
    ensures SumValues(Inc(m, k)) == SumValues(m) + 1
  {
    var m' := Inc(m, k);
    SumRemove(m', k);
    if k in m {
      SumRemove(m, k);
      assert m' - {k} == m - {k};
    } else {
      assert m' - {k} == m;
    }
  }

  /** Adding a key not yet bumped is one more increment. */
  lemma BumpAdd(m: Counts, ks: set<CallSite>, k: CallSite)
    requires k !in ks
    ensures Bump(m, ks + {k}) == Inc(Bump(m, ks), k)
  {
  }

  /** An increment outside `ks` commutes with bumping `ks`. */
  lemma IncBump(m: Counts, ks: set<CallSite>, k: CallSite)
    requires k !in ks
    ensures Bump(Inc(m, k), ks) == Inc(Bump(m, ks), k)
  {
  }

  /** `Bump` of the empty set changes nothing. */
  lemma BumpNone(m: Counts)
    ensures Bump(m, {}) == m
  {
  }

  /** Incrementing every key of `ks` raises the sum by `|ks|`. */
  lemma {:induction false} SumBump(m: Counts, ks: set<CallSite>)
    ensures SumValues(Bump(m, ks)) == SumValues(m) + |ks|
    decreases |ks|
  {
    if ks == {} {
      BumpNone(m);
    } else {
      var k :| k in ks;
      var rest := ks - {k};
      SumBump(m, rest);
      BumpAdd(m, rest, k);
      assert rest + {k} == ks;
      SumInc(Bump(m, rest), k);
    }
  }

  /** The map after counting every sample of `h`. */
  ghost function Tally(h: seq<Stack>, f: Stack -> set<CallSite>): Counts {
    if h == [] then map[] else Bump(Tally(h[..|h| - 1], f), f(h[|h| - 1]))
  }

  /** The keys one sample adds to the self counter. */
  function Innermost(s: Stack): set<CallSite> {
    {s[0]}
  }

  /** The keys one sample adds to the cumulative counter. `Chosen` is
      defined on every sequence; this copy on `Stack` is the function value
      `Tally` takes, because the prover does not see through the coercion
      of `Chosen` from sequences to stacks when it is passed as a value. */
  function Cumulative(s: Stack): set<CallSite> {
    Chosen(s)
  }

  /** `_counter` after the samples `h` since the last reset. */
  ghost function SelfCounts(h: seq<Stack>): Counts {
    Tally(h, Innermost)
  }

  /** `_cum_counter` after the samples `h` since the last reset. */
  ghost function CumCounts(h: seq<Stack>): Counts {
    Tally(h, Cumulative)
  }

  /** Counting one more sample. */
  lemma TallySnoc(h: seq<Stack>, s: Stack, f: Stack -> set<CallSite>)
    ensures Tally(h + [s], f) == Bump(Tally(h, f), f(s))
  {
    assert (h + [s])[..|h|] == h;
  }

  /** What the handler does to the self counter, `_counter[key] += 1`, is
      counting one more sample. */
  lemma SelfStep(h: seq<Stack>, s: Stack)
    ensures Inc(SelfCounts(h), s[0]) == Bump(SelfCounts(h), {s[0]}) == SelfCounts(h + [s])
  {
    TallySnoc(h, s, Innermost);
    BumpNone(SelfCounts(h));
    BumpAdd(SelfCounts(h), {}, s[0]);
  }

  /** What the handler does to the cumulative counter, one increment for the
      innermost frame and then one per caller the walk credits, is counting
      one more sample. */
  lemma CumStep(h: seq<Stack>, s: Stack)
    ensures Bump(Inc(CumCounts(h), s[0]), Chosen(s) - {s[0]}) == Bump(CumCounts(h), Chosen(s))
    ensures Bump(CumCounts(h), Chosen(s)) == CumCounts(h + [s])
  {
    TallySnoc(h, s, Cumulative);
    InnermostChosen(s);
    var m, callers := CumCounts(h), Chosen(s) - {s[0]};
    IncBump(m, callers, s[0]);
    BumpAdd(m, callers, s[0]);
    assert callers + {s[0]} == Chosen(s);
  }

  /** The samples of `h` in which `k` is among the credited call sites. */
  ghost function Hits(h: seq<Stack>, f: Stack -> set<CallSite>, k: CallSite): set<nat> {
    set i: nat | i < |h| && k in f(h[i])
  }

  /** A tallied count is the number of samples that credited the key. */
  lemma {:induction false} TallyIsHits(h: seq<Stack>, f: Stack -> set<CallSite>, k: CallSite)
    ensures Count(Tally(h, f), k) == |Hits(h, f, k)|
  {
    if h != [] {
      var n := |h| - 1;
      var p := h[..n];
      TallyIsHits(p, f, k);
      assert forall i | 0 <= i < n :: p[i] == h[i];
      if k in f(h[n]) {
        assert Hits(h, f, k) == Hits(p, f, k) + {n};
      } else {
        assert Hits(h, f, k) == Hits(p, f, k);
      }
    }
  }

  /** Every key in a tally has been counted at least once. */
  lemma {:induction false} TallyPositive(h: seq<Stack>, f: Stack -> set<CallSite>, k: CallSite)
    requires k in Tally(h, f)
    ensures Tally(h, f)[k] >= 1
  {
    var n := |h| - 1;
    if k !in Tally(h[..n], f) {
      assert k in f(h[n]);
    } else {
      TallyPositive(h[..n], f, k);
    }
  }

  /** The sum of a tally is the number of credits handed out. */
  lemma {:induction false} SumTally(h: seq<Stack>, f: Stack -> set<CallSite>)
    ensures SumValues(Tally(h, f)) == Credits(h, f)
  {
    if h != [] {
      var n := |h| - 1;
      SumTally(h[..n], f);
      SumBump(Tally(h[..n], f), f(h[n]));
    }
  }

  /** The total number of credits a tally hands out over `h`. */
  ghost function Credits(h: seq<Stack>, f: Stack -> set<CallSite>): nat {
    if h == [] then 0 else Credits(h[..|h| - 1], f) + |f(h[|h| - 1])|
  }

  /** Sum invariant: after `n` samples the self counts add up to `n`. */
  lemma {:induction false} SelfTotal(h: seq<Stack>)
    ensures SumValues(SelfCounts(h)) == |h|
  {
    SumTally(h, Innermost);
    SelfCredits(h);
  }

  lemma {:induction false} SelfCredits(h: seq<Stack>)
    ensures Credits(h, Innermost) == |h|
  {
    if h != [] {
      SelfCredits(h[..|h| - 1]);
    }
  }

  /** The number of distinct code units summed over the samples of `h`. */
  ghost function DistinctCodes(h: seq<Stack>): nat {
    if h == [] then 0 else DistinctCodes(h[..|h| - 1]) + |Codes(h[|h| - 1])|
  }

  /** The cumulative counts add up to the number of distinct code units per
      sample, summed over the samples. */
  lemma {:induction false} CumTotal(h: seq<Stack>)
    ensures SumValues(CumCounts(h)) == DistinctCodes(h)
  {
    SumTally(h, Cumulative);
    CumCredits(h);
  }

  lemma {:induction false} CumCredits(h: seq<Stack>)
    ensures Credits(h, Cumulative) == DistinctCodes(h)
  {
    if h != [] {
      var n := |h| - 1;
      CumCredits(h[..n]);
      ChosenCount(h[n]);
      assert Credits(h, Cumulative) == Credits(h[..n], Cumulative) + |Chosen(h[n])|;
    }
  }

  /** The samples of `h` whose innermost frame is `k`. */
  ghost function InnermostSamples(h: seq<Stack>, k: CallSite): set<nat> {
    set i: nat | i < |h| && h[i][0] == k
  }

  /** The samples of `h` in which `k` is the innermost frame of its code
      unit. */
  ghost function OccurrenceSamples(h: seq<Stack>, k: CallSite): set<nat> {
    set i: nat | i < |h| && k.code in Codes(h[i]) && k == h[i][FirstIndex(h[i], k.code)]
  }

  /** The self count of `k` is the number of samples whose innermost frame
      is `k`. */
  lemma SelfCountMeaning(h: seq<Stack>, k: CallSite)
    ensures Count(SelfCounts(h), k) == |InnermostSamples(h, k)|
  {
    TallyIsHits(h, Innermost, k);
    assert Hits(h, Innermost, k) == InnermostSamples(h, k);
  }

  /** The cumulative count of `k` is the number of samples in which `k` is
      the innermost occurrence of its code unit: a recursive code unit is
      counted once per sample, at its innermost line. */
  lemma CumCountMeaning(h: seq<Stack>, k: CallSite)
    ensures Count(CumCounts(h), k) == |OccurrenceSamples(h, k)|
  {
    TallyIsHits(h, Cumulative, k);
    forall i: nat ensures i in Hits(h, Cumulative, k) <==> i in OccurrenceSamples(h, k) {
      if i < |h| {
        ChosenIsInnermostOccurrence(h[i], k);
      }
    }
    assert Hits(h, Cumulative, k) == OccurrenceSamples(h, k);
  }

  /** Cumulative dominance: no call site has a larger self count than
      cumulative count. */
  lemma Dominance(h: seq<Stack>, k: CallSite)
    ensures Count(SelfCounts(h), k) <= Count(CumCounts(h), k)
  {
    TallyIsHits(h, Innermost, k);
    TallyIsHits(h, Cumulative, k);
    forall i: nat | i in Hits(h, Innermost, k) ensures i in Hits(h, Cumulative, k) {
      assert i < |h| && k in Innermost(h[i]);
      InnermostChosen(h[i]);
      assert k in Chosen(h[i]);
    }
    SubsetCard(Hits(h, Innermost, k), Hits(h, Cumulative, k));
  }

  /** No count exceeds the number of samples, so no percentage of the report
      exceeds 100. */
  lemma {:induction false} TallyBounded(h: seq<Stack>, f: Stack -> set<CallSite>, k: CallSite)
    ensures Count(Tally(h, f), k) <= |h|
  {
    if h != [] {
      TallyBounded(h[..|h| - 1], f, k);
    }
  }

  /** The report total is zero exactly when both counters are empty. */
  lemma NoSamplesNoEntries(h: seq<Stack>)
    ensures SelfCounts(h) == map[] <==> h == []
    ensures CumCounts(h) == map[] <==> h == []
  {
    if h != [] {
      var s := h[|h| - 1];
      InnermostChosen(s);
      assert s[0] in SelfCounts(h);
      assert s[0] in CumCounts(h);
    }
  }

  lemma SubsetCard<T>(a: set<T>, b: set<T>)
    requires a <= b
    ensures |a| <= |b|
  {
    assert b == a + (b - a);
  }
}

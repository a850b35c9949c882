/**
  The report of sigprofiler.py (`_print_profile`, `_show_profile`): each
  counter listed as (call site, count) entries sorted by count, largest
  first, each entry with its share of the total number of samples.
*/
module Report {
  import opened Wrappers
  import opened CallStack
  import opened Counters

  /** One `(key, count)` pair of `counter.items()`. */
  datatype Entry = Entry(site: CallSite, count: nat)

  /** One line of a section: an entry and `100.0*count/total`. */
  datatype Line = Line(entry: Entry, percent: real)

  /** The exception the report raises: `100.0*count/total` with `total == 0`. */
  datatype ReportError = ZeroDivision

  /** The entries of a counter, as a set. */
  function EntrySet(m: Counts): set<Entry> {
    set k | k in m :: Entry(k, m[k])
  }

  /** `xs` lists the entries of `m`, in some order, each once. */
  ghost predicate Lists(xs: seq<Entry>, m: Counts) {
    multiset(xs) == multiset(EntrySet(m))
  }

  /** The order `sort(key=count, reverse=True)` produces. */
  predicate SortedByCount(xs: seq<Entry>) {
    forall i, j | 0 <= i < j < |xs| :: xs[i].count >= xs[j].count
  }

  function Percent(count: nat, total: nat): real
    requires total > 0
  {
    100.0 * (count as real) / (total as real)
  }

  function EntriesOf(lines: seq<Line>): seq<Entry> {
    seq(|lines|, i requires 0 <= i < |lines| => lines[i].entry)
  }

  /** A section of the report: every entry of `m` exactly once, sorted by
      count, largest first, each with its percentage of `total`. */
  ghost predicate IsSection(lines: seq<Line>, m: Counts, total: nat) {
    && Lists(EntriesOf(lines), m)
    && SortedByCount(EntriesOf(lines))
    && forall i | 0 <= i < |lines| :: total > 0 && lines[i].percent == Percent(lines[i].entry.count, total)
  }

  /** Taking one key out of a counter takes its one entry out of the set. */
  lemma EntrySetRemove(m: Counts, k: CallSite)
    requires k in m
    ensures EntrySet(m) == EntrySet(m - {k}) + {Entry(k, m[k])}
    ensures Entry(k, m[k]) !in EntrySet(m - {k})
  {
    forall e | e in EntrySet(m) ensures e in EntrySet(m - {k}) + {Entry(k, m[k])} {
      var k' :| k' in m && e == Entry(k', m[k']);
      if k' != k {
        assert k' in m - {k};
      }
    }
  }

  lemma {:induction false} EntrySetSize(m: Counts)
    ensures |EntrySet(m)| == |m|
    decreases |m|
  {
    if m != map[] {
      assert m.Keys != {};
      var k :| k in m;
      EntrySetRemove(m, k);
      EntrySetSize(m - {k});
    }
  }

  /** An element that occurs at two positions has multiplicity two. */
  lemma Multiplicity(xs: seq<Entry>, i: nat, j: nat)
    requires i < j < |xs|
    ensures multiset(xs)[xs[j]] >= if xs[i] == xs[j] then 2 else 1
  {
    assert xs == xs[..j] + [xs[j]] + xs[j + 1..];
    assert xs[..j][i] == xs[i];
    assert xs[i] == xs[j] ==> xs[j] in multiset(xs[..j]);
  }

  /** A listing has one line per key of the counter, with that key's count,
      and no key twice. */
  lemma ListingIsOnePerKey(xs: seq<Entry>, m: Counts)
    requires Lists(xs, m)
    ensures |xs| == |m|
    ensures forall i | 0 <= i < |xs| :: xs[i].site in m && xs[i].count == m[xs[i].site]
    ensures forall k | k in m :: Entry(k, m[k]) in xs
    ensures forall i, j | 0 <= i < j < |xs| :: xs[i].site != xs[j].site
  {
    EntrySetSize(m);
    assert |multiset(xs)| == |xs|;
    forall i | 0 <= i < |xs| ensures xs[i].site in m && xs[i].count == m[xs[i].site] {
      assert xs[i] in multiset(xs);
    }
    forall k | k in m ensures Entry(k, m[k]) in xs {
      assert Entry(k, m[k]) in multiset(EntrySet(m));
    }
    forall i, j | 0 <= i < j < |xs| ensures xs[i].site != xs[j].site {
      Multiplicity(xs, i, j);
      assert xs[i] in multiset(xs) && xs[j] in multiset(xs);
      assert multiset(EntrySet(m))[xs[j]] <= 1;
    }
  }

  /** `sum(counter.values())`. */
  method SumCounts(m: Counts) returns (total: nat)
    ensures total == SumValues(m)
  {
    total := 0;
    var rest := m;
    while rest != map[]
      invariant total + SumValues(rest) == SumValues(m)
      decreases |rest|
    {
      var k :| k in rest;
      SumRemove(rest, k);
      total := total + rest[k];
      rest := rest - {k};
    }
  }

  /** `list(counter.items())`: the entries in the counter's iteration order,
      which the model leaves unspecified. */
  method ItemsOf(m: Counts) returns (xs: seq<Entry>)
    ensures Lists(xs, m)
  {
    xs := [];
    var rest := m;
    while rest != map[]
      invariant multiset(xs) + multiset(EntrySet(rest)) == multiset(EntrySet(m))
      decreases |rest|
    {
      var k :| k in rest;
      EntrySetRemove(rest, k);
      xs := xs + [Entry(k, rest[k])];
      rest := rest - {k};
    }
  }

  method Swap(a: array<Entry>, i: nat, j: nat)
    requires i < j < a.Length
    modifies a
    ensures a[i] == old(a[j]) && a[j] == old(a[i])
    ensures forall p | 0 <= p < a.Length && p != i && p != j :: a[p] == old(a[p])
    ensures multiset(a[..]) == old(multiset(a[..]))
  {
    a[i], a[j] := a[j], a[i];
  }

  /** One pass of the insertion sort: sinks `a[i]` into the sorted prefix
      `a[..i]`, moving it past every entry with a smaller count. */
  method Insert(a: array<Entry>, i: nat)
    requires i < a.Length && SortedByCount(a[..i])
    modifies a
    ensures SortedByCount(a[..i + 1])
    ensures multiset(a[..]) == old(multiset(a[..]))
  {
    var j := i;
    while j > 0 && a[j - 1].count < a[j].count
      invariant 0 <= j <= i
      invariant forall p, q | 0 <= p < q <= i && p != j && q != j :: a[p].count >= a[q].count
      invariant forall q | j < q <= i :: a[j].count > a[q].count
      invariant multiset(a[..]) == old(multiset(a[..]))
    {
      Swap(a, j - 1, j);
      j := j - 1;
    }
  }

  /** `items.sort(key=lambda x: x[1], reverse=True)`, in place: a stable
      insertion sort by count, largest first. */
  method SortByCount(a: array<Entry>)
    modifies a
    ensures SortedByCount(a[..])
    ensures multiset(a[..]) == old(multiset(a[..]))
  {
    var i := 0;
    while i < a.Length
      invariant 0 <= i <= a.Length
      invariant SortedByCount(a[..i])
      invariant multiset(a[..]) == old(multiset(a[..]))
    {
      Insert(a, i);
      i := i + 1;
    }
    assert a[..a.Length] == a[..];
  }

  /** `_print_profile(counter, total, file)`: the lines of one section, or
      the division by zero of the first line when `total` is zero. */
  method PrintProfile(counter: Counts, total: nat) returns (r: Result<seq<Line>, ReportError>)
    ensures r.Failure? <==> total == 0 && counter != map[]
    ensures r.Success? ==> IsSection(r.value, counter, total)
  {
    var items := ItemsOf(counter);
    assert |items| == |counter| by {
      ListingIsOnePerKey(items, counter);
    }
    var a := new Entry[|items|](k requires 0 <= k < |items| => items[k]);
    assert a[..] == items;
    SortByCount(a);
    var lines: seq<Line> := [];
    for i := 0 to a.Length
      invariant |lines| == i
      invariant forall j | 0 <= j < i :: total > 0 && lines[j] == Line(a[j], Percent(a[j].count, total))
    {
      if total == 0 {
        return Failure(ZeroDivision);
      }
      lines := lines + [Line(a[i], Percent(a[i].count, total))];
    }
    assert EntriesOf(lines) == a[..];
    r := Success(lines);
  }

  /** The report `_show_profile` writes: the total, then the self section,
      then the cumulative section. */
  datatype Output = Output(total: nat, time: seq<Line>, cumulative: seq<Line>)

  /** What the sink receives, in order. */
  datatype Text = Header(title: string) | Row(line: Line)

  function Rows(lines: seq<Line>): seq<Text> {
    seq(|lines|, i requires 0 <= i < |lines| => Row(lines[i]))
  }

  /** The writes of `_show_profile`: the self section's header and rows
      first, then the cumulative section's header and rows. */
  function Render(o: Output): (r: seq<Text>)
    ensures |r| == |o.time| + |o.cumulative| + 2
    ensures r[0] == Header("=== time ===")
    ensures forall i | 0 <= i < |o.time| :: r[1 + i] == Row(o.time[i])
    ensures r[|o.time| + 1] == Header("== cumulative time ==")
    ensures forall i | 0 <= i < |o.cumulative| :: r[|o.time| + 2 + i] == Row(o.cumulative[i])
  {
    [Header("=== time ===")] + Rows(o.time) + [Header("== cumulative time ==")] + Rows(o.cumulative)
  }
}

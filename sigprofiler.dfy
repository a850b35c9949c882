/**
  The process-wide state of sigprofiler.py and the operations on it: the
  signal handler `_sig_handler` (one sample), `reset`, `install` and
  `_show_profile`.

  The ghost `history` holds the stacks sampled since the last reset; the
  object invariant `Valid` says that the two counters are exactly what
  counting those samples gives, from which the report's properties follow.
*/
module SigProfiler {
  import opened Wrappers
  import opened CallStack
  import opened Counters
  import opened Timers
  import opened Report

  /** The arguments `install` passes to `signal.signal` and `setitimer`. */
  datatype Arming = Arming(selection: Selection, interval: real)

  /** `install` reaches `signal.signal(sigtype, ...)` with `sigtype` unbound. */
  datatype InstallError = UnboundLocal(name: string)

  class Profiler {
    /** `_counter`: self counts. */
    var counter: Counts
    /** `_cum_counter`: cumulative counts. */
    var cumCounter: Counts
    /** The samples taken since the last reset, oldest first. */
    ghost var history: seq<Stack>

    ghost predicate Valid()
      reads this
    {
      counter == SelfCounts(history) && cumCounter == CumCounts(history)
    }

    /** Module load: both `defaultdict(int)` counters start empty. */
    constructor ()
      ensures Valid() && history == []
      ensures counter == map[] && cumCounter == map[]
    {
      counter, cumCounter := map[], map[];
      history := [];
    }

    /** `_sig_handler(signal, frame)`: one sample of the interrupted stack.
        The innermost call site gains one self count; every call site of
        `Chosen(stack)` (the innermost one among them) gains one cumulative
        count; no other key changes (see `BumpCounts`). */
    method Sample(stack: Stack)
      requires Valid()
      modifies this
      ensures Valid() && history == old(history) + [stack]
      ensures counter == Bump(old(counter), {stack[0]})
      ensures cumCounter == Bump(old(cumCounter), Chosen(stack))
    {
      var key := stack[0];
      counter := Inc(counter, key);
      cumCounter := Inc(cumCounter, key);
      CountCallers(stack);
      SelfStep(history, stack);
      CumStep(history, stack);
      history := history + [stack];
    }

    /** The walk of `_sig_handler` outwards from the innermost frame: a
        caller whose code unit is not in the seen set `s` gains one
        cumulative count and its code unit joins `s`; a caller whose code
        unit was seen, the innermost frame's own included, is skipped. */
    method CountCallers(stack: Stack)
      modifies this`cumCounter
      ensures cumCounter == Bump(old(cumCounter), Chosen(stack) - {stack[0]})
    {
      var code := stack[0].code;
      var s: set<Code> := {code};
      ChosenStep(stack, 0);
      assert stack[..0] == [];
      BumpNone(cumCounter);
      var i := 1;
      while i < |stack|
        invariant 1 <= i <= |stack|
        invariant s == Codes(stack[..i])
        invariant cumCounter == Bump(old(cumCounter), Chosen(stack[..i]) - {stack[0]})
      {
        code := stack[i].code;
        ChosenStep(stack, i);
        if code !in s {
          CallerStep(stack, i);
          BumpAdd(old(cumCounter), Chosen(stack[..i]) - {stack[0]}, stack[i]);
          cumCounter := Inc(cumCounter, stack[i]);
          s := s + {code};
        }
        i := i + 1;
      }
      assert stack[..i] == stack;
    }

    /** `reset()`: both counters emptied. The new state does not depend on
        the old one, so a second reset changes nothing. */
    method Reset()
      modifies this
      ensures Valid() && history == []
      ensures counter == map[] && cumCounter == map[]
    {
      counter, cumCounter := map[], map[];
      history := [];
    }

    /** `install(target, interval)`: resets the counters first, then picks
        the timer and signal for `target`. An unknown target fails only
        after the counters have been cleared. */
    method Install(target: string := "cpu", interval: real := 0.01) returns (r: Result<Arming, InstallError>)
      modifies this
      ensures Valid() && history == []
      ensures counter == map[] && cumCounter == map[]
      ensures r.Failure? <==> ClockNamed(target).None?
      ensures r.Failure? ==> r.error == UnboundLocal("sigtype")
      ensures r.Success? ==> SelectTimer(target) == Some(r.value.selection) && r.value.interval == interval
    {
      Reset();
      var selection := SelectTimer(target);
      if selection.None? {
        return Failure(UnboundLocal("sigtype"));
      }
      r := Success(Arming(selection.value, interval));
    }

    /** `_show_profile()`: the total is the number of samples since the last
        reset; each section lists every key of its counter once, sorted by
        count, with a share in (0, 100]; the report never divides by zero. */
    method ShowProfile() returns (r: Result<Output, ReportError>)
      requires Valid()
      ensures r.Success?
      ensures r.value.total == |history|
      ensures r.value.total == 0 <==> counter == map[] && cumCounter == map[]
      ensures IsSection(r.value.time, counter, r.value.total)
      ensures IsSection(r.value.cumulative, cumCounter, r.value.total)
      ensures forall i | 0 <= i < |r.value.time| :: 0.0 < r.value.time[i].percent <= 100.0
      ensures forall i | 0 <= i < |r.value.cumulative| :: 0.0 < r.value.cumulative[i].percent <= 100.0
    {
      var total := SumCounts(counter);
      SelfTotal(history);
      NoSamplesNoEntries(history);
      var time := PrintProfile(counter, total);
      if time.Failure? {
        return Failure(ZeroDivision);
      }
      var cumulative := PrintProfile(cumCounter, total);
      if cumulative.Failure? {
        return Failure(ZeroDivision);
      }
      r := Success(Output(total, time.value, cumulative.value));
      SharesInRange(time.value, counter, total);
      SharesInRange(cumulative.value, cumCounter, total);
    }

    /** Every share the report prints lies in (0, 100]. */
    lemma SharesInRange(lines: seq<Line>, m: Counts, total: nat)
      requires Valid() && total == |history|
      requires m == counter || m == cumCounter
      requires IsSection(lines, m, total)
      ensures forall i | 0 <= i < |lines| :: 0.0 < lines[i].percent <= 100.0
    {
      ListingIsOnePerKey(EntriesOf(lines), m);
      forall i | 0 <= i < |lines| ensures 0.0 < lines[i].percent <= 100.0 {
        var k := lines[i].entry.site;
        assert EntriesOf(lines)[i] == lines[i].entry;
        Dominance(history, k);
        TallyBounded(history, Cumulative, k);
        if m == counter {
          TallyPositive(history, Innermost, k);
        } else {
          TallyPositive(history, Cumulative, k);
        }
        ShareBounds(lines[i].entry.count, total);
      }
    }
  }

  /** A count between one and the total is a share in (0, 100]. */
  lemma ShareBounds(count: nat, total: nat)
    requires 1 <= count <= total
    ensures 0.0 < Percent(count, total) <= 100.0
  {
    var c, t := count as real, total as real;
    assert c / t <= 1.0;
  }
}

/**
  The interrupted call stack as the sample collector sees it: a non-empty
  sequence of call sites, innermost frame first (the chain `frame`,
  `frame.f_back`, `frame.f_back.f_back`, ... of sigprofiler.py).

  `Chosen(s)` is the declarative description of the call sites whose
  cumulative counter one sample increments: the first (innermost)
  occurrence of every code unit on the stack.
*/
module CallStack {

  /** A code unit (a Python code object): what the report prints of it, plus
      an identity that tells apart code units with equal names. */
  datatype Code = Code(filename: string, name: string, id: nat)

  /** The key of both counters: a code unit and the line executing in it. */
  datatype CallSite = CallSite(code: Code, line: nat)

  /** A captured call stack, innermost frame first. */
  type Stack = s: seq<CallSite> | |s| > 0 witness [CallSite(Code("", "", 0), 0)]

  /** The code units that appear on `s`. */
  function Codes(s: seq<CallSite>): set<Code> {
    set i | 0 <= i < |s| :: s[i].code
  }

  /** Frame `i` is the innermost frame of its code unit. */
  predicate IsFirst(s: seq<CallSite>, i: int)
    requires 0 <= i < |s|
  {
    forall j | 0 <= j < i :: s[j].code != s[i].code
  }

  /** The call sites a sample adds to the cumulative counter. */
  function Chosen(s: seq<CallSite>): set<CallSite> {
    set i | 0 <= i < |s| && IsFirst(s, i) :: s[i]
  }

  /** The position of the innermost frame that runs code unit `c`. */
  function FirstIndex(s: seq<CallSite>, c: Code): (r: nat)
    requires c in Codes(s)
    ensures r < |s| && s[r].code == c
    ensures forall j | 0 <= j < r :: s[j].code != c
  {
    if s[0].code == c then 0
    else
      assert c in Codes(s[1..]) by {
        var i :| 0 <= i < |s| && s[i].code == c;
        assert s[1..][i - 1].code == c;
      }
      1 + FirstIndex(s[1..], c)
  }

  /** Extending a prefix of the stack by one frame: the walk's step. A frame
      adds its call site to `Chosen` exactly when its code unit is not yet
      among the codes of the frames inside it. */
  lemma ChosenStep(s: seq<CallSite>, i: nat)
    requires i < |s|
    ensures Codes(s[..i + 1]) == Codes(s[..i]) + {s[i].code}
    ensures s[i].code in Codes(s[..i]) ==> Chosen(s[..i + 1]) == Chosen(s[..i])
    ensures s[i].code !in Codes(s[..i]) ==>
              Chosen(s[..i + 1]) == Chosen(s[..i]) + {s[i]} && s[i] !in Chosen(s[..i])
  {
    var p, q := s[..i], s[..i + 1];
    assert forall j | 0 <= j < i :: q[j] == p[j];
    assert q[i] == s[i];
    assert Codes(q) == Codes(p) + {s[i].code} by {
      forall c | c in Codes(q) ensures c in Codes(p) + {s[i].code} {
        var j :| 0 <= j < |q| && q[j].code == c;
        if j < i { assert p[j].code == c; }
      }
    }
    assert forall j | 0 <= j < i :: IsFirst(q, j) == IsFirst(p, j);
    if s[i].code in Codes(p) {
      var j :| 0 <= j < |p| && p[j].code == s[i].code;
      assert !IsFirst(q, i);
      forall k | k in Chosen(q) ensures k in Chosen(p) {
        var m :| 0 <= m < |q| && IsFirst(q, m) && q[m] == k;
        assert m < i;
      }
    } else {
      assert IsFirst(q, i);
      forall k | k in Chosen(q) ensures k in Chosen(p) + {s[i]} {
        var m :| 0 <= m < |q| && IsFirst(q, m) && q[m] == k;
        if m < i { assert p[m] == k; }
      }
      forall k | k in Chosen(p) ensures k.code in Codes(p) {
        var m :| 0 <= m < |p| && IsFirst(p, m) && p[m] == k;
      }
    }
  }

  /** The step of `ChosenStep` on the callers of the innermost frame: a
      caller with a new code unit is credited, and was not credited before. */
  lemma CallerStep(s: seq<CallSite>, i: nat)
    requires 0 < i < |s| && s[i].code !in Codes(s[..i])
    ensures Chosen(s[..i + 1]) - {s[0]} == Chosen(s[..i]) - {s[0]} + {s[i]}
    ensures s[i] !in Chosen(s[..i]) - {s[0]}
  {
    ChosenStep(s, i);
    assert s[0] == s[..i][0];
    assert s[i] != s[0];
  }

  /** The innermost frame is always chosen: every sample adds to the
      cumulative count of the key whose self count it increments. */
  lemma InnermostChosen(s: Stack)
    ensures s[0] in Chosen(s)
  {
    assert IsFirst(s, 0);
  }

  /** Which call sites a sample credits: exactly the innermost occurrence of
      each code unit on the stack, and nothing else. */
  lemma ChosenIsInnermostOccurrence(s: seq<CallSite>, k: CallSite)
    ensures k in Chosen(s) <==> k.code in Codes(s) && k == s[FirstIndex(s, k.code)]
  {
    if k in Chosen(s) {
      var i :| 0 <= i < |s| && IsFirst(s, i) && s[i] == k;
      assert k.code in Codes(s);
      var f := FirstIndex(s, k.code);
      assert i >= f by { assert s[i].code == k.code; }
      assert i <= f by { assert s[f].code == s[i].code; }
    }
    if k.code in Codes(s) && k == s[FirstIndex(s, k.code)] {
      var f := FirstIndex(s, k.code);
      assert IsFirst(s, f);
    }
  }

  /** Recursion is counted once per sample: of the call sites a sample
      credits, exactly one belongs to each code unit on the stack. */
  lemma OneChosenPerCode(s: seq<CallSite>, c: Code, k1: CallSite, k2: CallSite)
    requires k1 in Chosen(s) && k2 in Chosen(s)
    requires k1.code == c && k2.code == c
    ensures k1 == k2
  {
    ChosenIsInnermostOccurrence(s, k1);
    ChosenIsInnermostOccurrence(s, k2);
  }

  /** The number of cumulative increments of a prefix equals the number of
      distinct code units on it. */
  lemma {:induction false} ChosenCountPrefix(s: seq<CallSite>, i: nat)
    requires i <= |s|
    ensures |Chosen(s[..i])| == |Codes(s[..i])|
  {
    if i == 0 {
      assert s[..0] == [];
      assert Codes(s[..0]) == {};
      assert Chosen(s[..0]) == {};
    } else {
      ChosenCountPrefix(s, i - 1);
      StepKeepsBalance(s, i - 1);
      assert i - 1 + 1 == i;
    }
  }

  /** One step of the walk credits a call site exactly when it meets a new
      code unit. */
  lemma StepKeepsBalance(s: seq<CallSite>, i: nat)
    requires i < |s|
    ensures |Chosen(s[..i + 1])| - |Codes(s[..i + 1])| == |Chosen(s[..i])| - |Codes(s[..i])|
  {
    var p, q := s[..i], s[..i + 1];
    ChosenStep(s, i);
    if s[i].code in Codes(p) {
      assert Codes(p) + {s[i].code} == Codes(p);
    } else {
      CardAdd(Chosen(p), s[i]);
      CardAdd(Codes(p), s[i].code);
    }
  }

  lemma CardAdd<T>(a: set<T>, x: T)
    requires x !in a
    ensures |a + {x}| == |a| + 1
  {
  }

  /** A sample adds to the cumulative counter as many times as there are
      distinct code units on the stack. */
  lemma ChosenCount(s: seq<CallSite>)
    ensures |Chosen(s)| == |Codes(s)|
  {
    ChosenCountPrefix(s, |s|);
    assert s[..|s|] == s;
  }

  /** The recursion scenario: one code unit active at three different lines
      is credited once, at the innermost line. */
  lemma RecursionCountedOnce(c: Code)
    ensures Chosen([CallSite(c, 3), CallSite(c, 5), CallSite(c, 7)]) == {CallSite(c, 3)}
  {
    var s := [CallSite(c, 3), CallSite(c, 5), CallSite(c, 7)];
    assert IsFirst(s, 0);
    assert !IsFirst(s, 1) && !IsFirst(s, 2) by {
      assert s[0].code == s[1].code == s[2].code;
    }
  }
}

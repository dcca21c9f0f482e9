/** The reports of an instrumented program add up to the instructions that the program itself executes. */
module ProfilingCorrect {
  import opened Profiling

  lemma {:induction false} InstrumentedAt(f: Function, n: nat, b: nat)
    requires b < n <= |f| && forall k :: 0 <= k < |f| ==> f[k] != []
    ensures |InstrumentedFunction(f, n)| == n && InstrumentedFunction(f, n)[b] == Instrumented(f[b])
  {
    if b < n - 1 { InstrumentedAt(f, n - 1, b); } else if n > 1 { InstrumentedAt(f, n - 1, 0); }
  }

  lemma BlocksOfProgram(p: Program, f: nat, b: nat)
    requires ProgramOk(p) && f < |p| && b < |p[f]|
    ensures BlockOk(p[f][b])
    ensures var q := InstrumentedProgram(p);
      |q| == |p| && |q[f]| == |p[f]| && q[f][b] == Instrumented(p[f][b])
  {
    assert forall k :: 0 <= k < |p[f]| ==> BlockOk(p[f][k]);
    InstrumentedAt(p[f], |p[f]|, b);
  }

  lemma UpdateCallAdds(s: Runtime, b: Block, op: nat)
    requires b != []
    ensures var h := HistogramOf(b, |b|);
      && |Keys(h)| == |Values(h)|
      && SameModulo(Get(Updated(s.counters, Keys(h), Values(h), |Keys(h)|), op),
           Get(s.counters, op) + InBlock(b, |b|, op))
  {
    var h := HistogramOf(b, |b|);
    if h != [] { KeysAndValues(h, 0); }
    UpdateAdds(s.counters, h, |h|, op);
    assert h[..|h|] == h;
    HistogramCounts(b, |b|, op);
  }

  /** What the instrumentation at the end of a block does. */
  function AtEnd(s: Runtime, b: Block): Runtime
    requires b != [] && |Keys(HistogramOf(b, |b|))| == |Values(HistogramOf(b, |b|))|
  {
    var h := HistogramOf(b, |b|);
    var t := s.(counters := Updated(s.counters, Keys(h), Values(h), |Keys(h)|));
    if HasReturn(b, |b|) then Report(t) else t
  }

  lemma ExecuteEnd(q: Program, b: Block, s: Runtime)
    requires BlockOk(b) && |Keys(HistogramOf(b, |b|))| == |Values(HistogramOf(b, |b|))|
    ensures ExecuteBlock(q, Instrumented(b), |b| - 1, NoCalls, s) == AtEnd(s, b)
  {
    var n := |b| - 1;
    var bi := Instrumented(b);
    hide HistogramOf, Keys, Values, Updated, HasReturn;
    var h := HistogramOf(b, |b|);
    var t := s.(counters := Updated(s.counters, Keys(h), Values(h), |Keys(h)|));
    assert bi[n] == UpdateCall(Keys(h), Values(h));
    assert ExecuteBlock(q, bi, n, NoCalls, s) == ExecuteBlock(q, bi, n + 1, NoCalls, t);
    if HasReturn(b, |b|) {
      assert bi[n + 1] == PrintCall && bi[n + 2] == b[n] && |bi| == n + 3;
      assert ExecuteBlock(q, bi, n + 1, NoCalls, t) == ExecuteBlock(q, bi, n + 2, NoCalls, Report(t));
      assert ExecuteBlock(q, bi, n + 2, NoCalls, Report(t)) == Report(t);
    } else {
      assert bi[n + 1] == b[n] && |bi| == n + 2;
      assert ExecuteBlock(q, bi, n + 1, NoCalls, t) == t;
    }
  }

  lemma EndConserves(s: Runtime, b: Block, op: nat)
    requires BlockOk(b) && |Keys(HistogramOf(b, |b|))| == |Values(HistogramOf(b, |b|))|
    ensures SameModulo(Total(AtEnd(s, b), op), Total(s, op) + InBlock(b, |b|, op))
    ensures b[|b| - 1].Ret? ==> AtEnd(s, b).counters == map[]
  {
    UpdateCallAdds(s, b, op);
    var h := HistogramOf(b, |b|);
    var m := Updated(s.counters, Keys(h), Values(h), |Keys(h)|);
    ModuloAdd(Get(m, op), Get(s.counters, op) + InBlock(b, |b|, op), Reported(s.reports, op), Reported(s.reports, op));
  }

  lemma {:induction false} BlockConserves(p: Program, b: Block, i: nat, calls: Calls, s: Runtime, op: nat)
    requires ProgramOk(p) && BlockOk(b) && i < |b| && CallsOk(p, b, i, calls)
    ensures var t := ExecuteBlock(InstrumentedProgram(p), Instrumented(b), i, calls, s);
      && SameModulo(Total(t, op), Total(s, op) + Occurrences(BlockTrace(p, b, i, calls), op) + InBlock(b, i, op))
      && (b[|b| - 1].Ret? ==> t.counters == map[])
    decreases calls, 0, |b| - i
  {
    var q, bi := InstrumentedProgram(p), Instrumented(b);
    if i == |b| - 1 {
      UpdateCallAdds(s, b, op);
      ExecuteEnd(q, b, s);
      EndConserves(s, b, op);
      assert BlockTrace(p, b, i, calls) == [Opcode(b[i])];
    } else {
      assert bi[i] == b[i];
      if b[i].CallTo? {
        CallConserves(p, b, i, calls, s, op);
      } else {
        BlockConserves(p, b, i + 1, calls, s, op);
        OccurrencesConcat([Opcode(b[i])], BlockTrace(p, b, i + 1, calls), op);
      }
    }
  }

  lemma {:induction false} CallConserves(p: Program, b: Block, i: nat, calls: Calls, s: Runtime, op: nat)
    requires ProgramOk(p) && BlockOk(b) && i < |b| - 1 && CallsOk(p, b, i, calls) && b[i].CallTo?
    ensures var t := ExecuteBlock(InstrumentedProgram(p), Instrumented(b), i, calls, s);
      && SameModulo(Total(t, op), Total(s, op) + Occurrences(BlockTrace(p, b, i, calls), op) + InBlock(b, i, op))
      && (b[|b| - 1].Ret? ==> t.counters == map[])
    decreases calls, 0, |b| - i, 0
  {
    var q, bi, g := InstrumentedProgram(p), Instrumented(b), b[i].target;
    assert bi[i] == b[i];
    var inner, outer := Trace(p, g, calls.callee), BlockTrace(p, b, i + 1, calls.others);
    var after := Execute(q, g, calls.callee, s);
    RunConserves(p, g, 0, calls.callee, s, op);
    BlockConserves(p, b, i + 1, calls.others, after, op);
    OccurrencesConcat([CALL], inner, op);
    OccurrencesConcat([CALL] + inner, outer, op);
    hide SameModulo, Total, ExecuteBlock, Execute, Trace;
    var rest := Occurrences(outer, op) + InBlock(b, i + 1, op);
    var t := ExecuteBlock(q, bi, i + 1, calls.others, after);
    ModuloAdd(Total(after, op), Total(s, op) + Occurrences(inner, op), rest, rest);
    ModuloTransitive(Total(t, op), Total(after, op) + rest, Total(s, op) + Occurrences(inner, op) + rest);
  }

  lemma {:induction false} RunConserves(p: Program, f: nat, b: nat, run: Run, s: Runtime, op: nat)
    requires ProgramOk(p) && RunOk(p, f, b, run)
    ensures var t := Execute(InstrumentedProgram(p), f, run, s);
      && SameModulo(Total(t, op), Total(s, op) + Occurrences(Trace(p, f, run), op))
      && t.counters == map[]
    decreases run, 1, 0
  {
    hide SameModulo, Total, ExecuteBlock, BlockTrace, InstrumentedProgram, Instrumented, Occurrences;
    var q := InstrumentedProgram(p);
    BlocksOfProgram(p, f, b);
    var block := p[f][b];
    assert InBlock(block, 0, op) == 0;
    BlockConserves(p, block, 0, run.calls, s, op);
    var after := ExecuteBlock(q, Instrumented(block), 0, run.calls, s);
    var here, more := BlockTrace(p, block, 0, run.calls), Trace(p, f, run.next);
    OccurrencesConcat(here, more, op);
    var t := Execute(q, f, run.next, after);
    assert Execute(q, f, run, s) == t && Trace(p, f, run) == here + more;
    if run.next.Left? {
      assert more == [] && here + more == here && t == after;
    } else {
      hide InBlock, BlockOk;
      RunConserves(p, f, run.next.block, run.next, after, op);
      hide InBlock, Trace, Execute;
      ModuloAdd(Total(after, op), Total(s, op) + Occurrences(here, op), Occurrences(more, op), Occurrences(more, op));
      ModuloTransitive(Total(t, op), Total(after, op) + Occurrences(more, op),
        Total(s, op) + Occurrences(here, op) + Occurrences(more, op));
    }
  }

  /** Conservation: after a run of main in which all blocks complete, however calls are nested, the reports together
      say for each opcode how many instructions of the original program were executed, modulo 2^32, and nothing is
      left unreported. */
  lemma ProfileIsConserved(p: Program, main: nat, run: Run)
    requires ProgramOk(p) && RunOk(p, main, 0, run)
    ensures var t := Execute(InstrumentedProgram(p), main, run, Runtime(map[], []));
      && t.counters == map[]
      && forall op: nat :: SameModulo(Reported(t.reports, op), Occurrences(Trace(p, main, run), op))
  {
    var start := Runtime(map[], []);
    hide Execute, SameModulo, Trace, RunOk, ProgramOk;
    var t := Execute(InstrumentedProgram(p), main, run, start);
    RunConserves(p, main, 0, run, start, 0);
    forall op: nat ensures SameModulo(Reported(t.reports, op), Occurrences(Trace(p, main, run), op)) {
      RunConserves(p, main, 0, run, start, op);
      assert Total(start, op) == 0;
      assert Total(t, op) == Reported(t.reports, op);
    }
  }
}

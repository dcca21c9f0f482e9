/** When an instrumented program reports, and what: one report for each return, with the counts of the blocks completed
    since the report before. */
module ProfilingReports {
  import opened Profiling
  import opened ProfilingCorrect

  /** The blocks a run completes, in the order in which they are completed: those of a call before the one it is in. */
  function Completed(p: Program, f: nat, run: Run): seq<Block>
    decreases run, 1, 0
  {
    if run.Left? || f >= |p| || run.block >= |p[f]| then []
    else
      var b := p[f][run.block];
      CompletedInside(p, b, 0, run.calls) + [b] + Completed(p, f, run.next)
  }

  function CompletedInside(p: Program, b: Block, i: nat, calls: Calls): seq<Block>
    requires i <= |b|
    decreases calls, 0, |b| - i
  {
    if i == |b| then []
    else if b[i].CallTo? && calls.Call? then
      Completed(p, b[i].target, calls.callee) + CompletedInside(p, b, i + 1, calls.others)
    else CompletedInside(p, b, i + 1, calls)
  }

  predicate Returns(b: Block) {
    b != [] && b[|b| - 1].Ret?
  }

  /** How often op occurs in the blocks after the last one that returns. */
  function Pending(done: seq<Block>, op: nat): nat {
    if done == [] then 0
    else
      var b := done[|done| - 1];
      if Returns(b) then 0 else Pending(done[..|done| - 1], op) + InBlock(b, |b|, op)
  }

  /** For each block that returns, how often op occurs in the blocks up to it and after the one before that returns. */
  function Expected(done: seq<Block>, op: nat): seq<nat> {
    if done == [] then []
    else
      var b, before := done[|done| - 1], done[..|done| - 1];
      Expected(before, op) + if Returns(b) then [Pending(before, op) + InBlock(b, |b|, op)] else []
  }

  function NumReturns(done: seq<Block>): nat {
    if done == [] then 0 else NumReturns(done[..|done| - 1]) + if Returns(done[|done| - 1]) then 1 else 0
  }

  /** The reports give these counts for op, one each. */
  ghost predicate ReportsAre(reports: seq<Counters>, counts: seq<nat>, op: nat) {
    && |reports| == |counts|
    && forall k :: 0 <= k < |reports| ==> SameModulo(Get(reports[k], op), counts[k])
  }

  /** The runtime has reported and counted what it should after these blocks. */
  ghost predicate Logged(s: Runtime, done: seq<Block>, op: nat) {
    && ReportsAre(s.reports, Expected(done, op), op)
    && SameModulo(Get(s.counters, op), Pending(done, op))
  }

  lemma ReturnsIff(b: Block)
    requires BlockOk(b)
    ensures b != [] && (HasReturn(b, |b|) <==> Returns(b))
  {}

  /** The end of a block is logged. */
  lemma EndLogged(s: Runtime, done: seq<Block>, b: Block, op: nat)
    requires BlockOk(b) && Logged(s, done, op) && |Keys(HistogramOf(b, |b|))| == |Values(HistogramOf(b, |b|))|
    ensures Logged(AtEnd(s, b), done + [b], op)
  {
    hide SameModulo, InBlock, HistogramOf, Keys, Values, Updated, HasReturn, BlockOk, ReportsAre, Expected, Get,
      Returns, Pending;
    var h, added := HistogramOf(b, |b|), InBlock(b, |b|, op);
    ReturnsIff(b);
    UpdateCallAdds(s, b, op);
    var m := Updated(s.counters, Keys(h), Values(h), |Keys(h)|);
    ModuloSelf(added);
    ModuloAdd(Get(s.counters, op), Pending(done, op), added, added);
    ModuloTransitive(Get(m, op), Get(s.counters, op) + added, Pending(done, op) + added);
    OneMoreDone(done, b, op);
    if Returns(b) { ReportLogged(s.reports, m, done, b, op); }
  }

  lemma OneMoreDone(done: seq<Block>, b: Block, op: nat)
    ensures var more := Pending(done, op) + InBlock(b, |b|, op);
      && Expected(done + [b], op) == (if Returns(b) then Expected(done, op) + [more] else Expected(done, op))
      && Pending(done + [b], op) == if Returns(b) then 0 else more
  {
    assert (done + [b])[..|done + [b]| - 1] == done;
  }

  lemma ReportLogged(reports: seq<Counters>, m: Counters, done: seq<Block>, b: Block, op: nat)
    requires Returns(b) && ReportsAre(reports, Expected(done, op), op)
    requires SameModulo(Get(m, op), Pending(done, op) + InBlock(b, |b|, op))
    ensures ReportsAre(reports + [m], Expected(done + [b], op), op) && SameModulo(Get(map[], op), 0)
  {
    OneMoreDone(done, b, op);
    hide SameModulo, Pending, InBlock, Expected;
    ModuloSelf(0);
  }

  lemma ModuloSelf(a: int)
    ensures SameModulo(a, a)
  {}

  lemma {:induction false} BlockLogged(
    p: Program, b: Block, i: nat, calls: Calls, s: Runtime, done: seq<Block>, op: nat)
    requires ProgramOk(p) && BlockOk(b) && i < |b| && CallsOk(p, b, i, calls) && Logged(s, done, op)
    ensures var t := ExecuteBlock(InstrumentedProgram(p), Instrumented(b), i, calls, s);
      Logged(t, done + (CompletedInside(p, b, i, calls) + [b]), op)
    decreases calls, 0, |b| - i
  {
    hide Logged, InstrumentedProgram;
    var q, bi := InstrumentedProgram(p), Instrumented(b);
    if i == |b| - 1 {
      UpdateCallAdds(s, b, op);
      ExecuteEnd(q, b, s);
      EndLogged(s, done, b, op);
      assert CompletedInside(p, b, i, calls) + [b] == [b];
    } else {
      assert bi[i] == b[i];
      if b[i].CallTo? {
        var g := b[i].target;
        RunLogged(p, g, 0, calls.callee, s, done, op);
        var inner, outer := Completed(p, g, calls.callee), CompletedInside(p, b, i + 1, calls.others);
        BlockLogged(p, b, i + 1, calls.others, Execute(q, g, calls.callee, s), done + inner, op);
        assert done + inner + (outer + [b]) == done + (inner + outer + [b]);
      } else {
        BlockLogged(p, b, i + 1, calls, s, done, op);
      }
    }
  }

  lemma {:induction false} RunLogged(p: Program, f: nat, b: nat, run: Run, s: Runtime, done: seq<Block>, op: nat)
    requires ProgramOk(p) && RunOk(p, f, b, run) && Logged(s, done, op)
    ensures Logged(Execute(InstrumentedProgram(p), f, run, s), done + Completed(p, f, run), op)
    decreases run, 1, 0
  {
    hide Logged, ExecuteBlock, InstrumentedProgram, Instrumented, CompletedInside;
    var q := InstrumentedProgram(p);
    BlocksOfProgram(p, f, b);
    var block := p[f][b];
    BlockLogged(p, block, 0, run.calls, s, done, op);
    var here := CompletedInside(p, block, 0, run.calls) + [block];
    var after := ExecuteBlock(q, Instrumented(block), 0, run.calls, s);
    if run.next.Left? {
      assert done + Completed(p, f, run) == done + here;
    } else {
      RunLogged(p, f, run.next.block, run.next, after, done + here, op);
      assert done + here + Completed(p, f, run.next) == done + (here + Completed(p, f, run.next));
    }
  }

  /** Reports are as many as returns, whatever has been counted. */
  lemma {:induction false} ExpectedPerReturn(done: seq<Block>, op: nat)
    ensures |Expected(done, op)| == NumReturns(done)
  {
    if done != [] { ExpectedPerReturn(done[..|done| - 1], op); }
  }

  lemma {:induction false} NumReturnsConcat(a: seq<Block>, b: seq<Block>)
    ensures NumReturns(a + b) == NumReturns(a) + NumReturns(b)
  {
    if b == [] {
      assert a + b == a;
    } else {
      NumReturnsConcat(a, b[..|b| - 1]);
      assert (a + b)[..|a + b| - 1] == a + b[..|b| - 1];
    }
  }

  /** The returns a run executes, those of calls included. */
  lemma {:induction false} ReturnsInTrace(p: Program, f: nat, b: nat, run: Run)
    requires ProgramOk(p) && RunOk(p, f, b, run)
    ensures NumReturns(Completed(p, f, run)) == Occurrences(Trace(p, f, run), RET)
    decreases run, 1, 0
  {
    BlocksOfProgram(p, f, b);
    var block := p[f][b];
    ReturnsInBlock(p, block, 0, run.calls);
    hide CompletedInside, BlockTrace, BlockOk, Occurrences, NumReturns;
    var here, more := CompletedInside(p, block, 0, run.calls) + [block], Completed(p, f, run.next);
    NumReturnsConcat(here, more);
    OccurrencesConcat(BlockTrace(p, block, 0, run.calls), Trace(p, f, run.next), RET);
    if run.next.Left? {
      assert more == [] && Trace(p, f, run.next) == [];
      NothingCounted();
    } else {
      ReturnsInTrace(p, f, run.next.block, run.next);
    }
  }

  lemma NothingCounted()
    ensures NumReturns([]) == 0 == Occurrences([], RET)
  {}

  lemma {:induction false} ReturnsInBlock(p: Program, b: Block, i: nat, calls: Calls)
    requires ProgramOk(p) && BlockOk(b) && i < |b| && CallsOk(p, b, i, calls)
    ensures NumReturns(CompletedInside(p, b, i, calls) + [b]) == Occurrences(BlockTrace(p, b, i, calls), RET)
    decreases calls, 0, |b| - i
  {
    if i == |b| - 1 {
      assert CompletedInside(p, b, i, calls) + [b] == [b] && [b][..0] == [];
      assert BlockTrace(p, b, i, calls) == [Opcode(b[i])] && [Opcode(b[i])][..0] == [];
    } else if b[i].CallTo? {
      var g := b[i].target;
      var inner, outer := Completed(p, g, calls.callee), CompletedInside(p, b, i + 1, calls.others);
      var trace, rest := Trace(p, g, calls.callee), BlockTrace(p, b, i + 1, calls.others);
      ReturnsInTrace(p, g, 0, calls.callee);
      ReturnsInBlock(p, b, i + 1, calls.others);
      assert CompletedInside(p, b, i, calls) + [b] == inner + (outer + [b]);
      NumReturnsConcat(inner, outer + [b]);
      assert BlockTrace(p, b, i, calls) == [CALL] + trace + rest;
      OccurrencesConcat([CALL], trace, RET);
      OccurrencesConcat([CALL] + trace, rest, RET);
      assert Occurrences([CALL], RET) == 0 by { assert [CALL][..0] == []; }
    } else {
      ReturnsInBlock(p, b, i + 1, calls);
      var rest := BlockTrace(p, b, i + 1, calls);
      assert BlockTrace(p, b, i, calls) == [Opcode(b[i])] + rest;
      OccurrencesConcat([Opcode(b[i])], rest, RET);
      assert Occurrences([Opcode(b[i])], RET) == 0 by { assert [Opcode(b[i])][..0] == []; }
    }
  }

  /** A run of main reports as often as it returns from a function, nested calls included, and the k-th report has the
      counts of the blocks completed up to the k-th return and after the return before it, modulo 2^32. */
  lemma OneReportPerReturn(p: Program, main: nat, run: Run)
    requires ProgramOk(p) && RunOk(p, main, 0, run)
    ensures var t := Execute(InstrumentedProgram(p), main, run, Runtime(map[], []));
      && |t.reports| == Occurrences(Trace(p, main, run), RET)
      && forall op: nat :: ReportsAre(t.reports, Expected(Completed(p, main, run), op), op)
  {
    var start, done := Runtime(map[], []), Completed(p, main, run);
    var t := Execute(InstrumentedProgram(p), main, run, start);
    hide RunOk, ProgramOk;
    assert [] + done == done;
    forall op: nat ensures ReportsAre(t.reports, Expected(done, op), op) {
      StartLogged(op);
      RunLogged(p, main, 0, run, start, [], op);
    }
    ExpectedPerReturn(done, 0);
    ReturnsInTrace(p, main, 0, run);
  }

  lemma StartLogged(op: nat)
    ensures Logged(Runtime(map[], []), [], op)
  {}
}

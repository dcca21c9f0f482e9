/** Dynamic instruction counting by instrumentation: the blocks of a program, what is put into them, and the
    runtime that the inserted calls reach. */
module Profiling {
  const RET := 1
  const CALL := 54

  /** Instructions of the program, and the two calls the instrumentation adds. A call of a function outside the program
      is an ordinary instruction. */
  datatype Instr =
    | Ordinary(code: nat)
    | CallTo(target: nat)
    | Ret
    | Branch(code: nat, targets: seq<nat>)
    | UpdateCall(keys: seq<nat>, values: seq<nat>)
    | PrintCall

  type Block = seq<Instr>
  type Function = seq<Block>
  type Program = seq<Function>

  function Opcode(i: Instr): nat {
    match i
    case Ordinary(code) => code
    case Branch(code, _) => code
    case Ret => RET
    case _ => CALL
  }

  predicate IsTerminator(i: Instr) {
    i.Ret? || i.Branch?
  }

  /** A block ends in its only terminator, and only returns have the opcode of a return. */
  predicate BlockOk(b: Block) {
    && b != [] && IsTerminator(b[|b| - 1])
    && (forall i :: 0 <= i < |b| - 1 ==> b[i].Ordinary? || b[i].CallTo?)
    && (forall i :: 0 <= i < |b| ==> (Opcode(b[i]) == RET <==> b[i].Ret?))
  }

  predicate ProgramOk(p: Program) {
    forall f, b :: 0 <= f < |p| && 0 <= b < |p[f]| ==> BlockOk(p[f][b])
  }

  // ----- Instrumentation -----

  /** A histogram, kept in ascending order of its keys. */
  datatype Entry = Entry(key: nat, count: nat)
  type Histogram = seq<Entry>

  function Bump(h: Histogram, key: nat): Histogram {
    if h == [] || key < h[0].key then [Entry(key, 1)] + h
    else if key == h[0].key then [Entry(key, h[0].count + 1)] + h[1..]
    else [h[0]] + Bump(h[1..], key)
  }

  /** How often each opcode occurs among the first n instructions. */
  function HistogramOf(b: Block, n: nat): Histogram
    requires n <= |b|
  {
    if n == 0 then [] else Bump(HistogramOf(b, n - 1), Opcode(b[n - 1]))
  }

  const TWO32 := 0x1_0000_0000

  function Keys(h: Histogram): seq<nat> {
    if h == [] then [] else Keys(h[..|h| - 1]) + [h[|h| - 1].key]
  }

  /** Counts become 32-bit constants. */
  function Values(h: Histogram): seq<nat> {
    if h == [] then [] else Values(h[..|h| - 1]) + [h[|h| - 1].count % TWO32]
  }

  predicate HasReturn(b: Block, n: nat)
    requires n <= |b|
  {
    exists i :: 0 <= i < n && Opcode(b[i]) == RET
  }

  /** The block with its update before the terminator, and a report after the update if it returns. */
  function Instrumented(b: Block): Block
    requires b != []
  {
    var h := HistogramOf(b, |b|);
    b[..|b| - 1] + [UpdateCall(Keys(h), Values(h))] + (if HasReturn(b, |b|) then [PrintCall] else []) + [b[|b| - 1]]
  }

  function InstrumentedFunction(f: Function, n: nat): Function
    requires n <= |f| && forall b :: 0 <= b < |f| ==> f[b] != []
  {
    if n == 0 then [] else InstrumentedFunction(f, n - 1) + [Instrumented(f[n - 1])]
  }

  function InstrumentedProgram(p: Program): Program
    requires ProgramOk(p)
  {
    seq(|p|, f requires 0 <= f < |p| =>
      assert forall b :: 0 <= b < |p[f]| ==> BlockOk(p[f][b]);
      InstrumentedFunction(p[f], |p[f]|))
  }

  // ----- The runtime -----

  type Counters = map<nat, nat>

  function Get(m: Counters, op: nat): nat {
    if op in m then m[op] else 0
  }

  function UpdateOne(m: Counters, key: nat, value: nat): Counters {
    if key !in m then m[key := value] else m[key := (m[key] + value) % TWO32]
  }

  /** The counters after the first n keys. */
  function Updated(m: Counters, keys: seq<nat>, values: seq<nat>, n: nat): Counters
    requires n <= |keys| == |values|
  {
    if n == 0 then m else UpdateOne(Updated(m, keys, values, n - 1), keys[n - 1], values[n - 1])
  }

  /** The counters, and the reports so far. */
  datatype Runtime = Runtime(counters: Counters, reports: seq<Counters>)

  function Report(s: Runtime): Runtime {
    Runtime(map[], s.reports + [s.counters])
  }

  // ----- Runs -----

  /** A run of a function: the blocks it goes through until it returns, each with the runs of the calls in it. */
  datatype Run = Left | Through(block: nat, calls: Calls, next: Run)

  datatype Calls = NoCalls | Call(callee: Run, others: Calls)

  /** The run goes through the blocks of function f from block b on as the code allows, and all blocks complete. */
  predicate RunOk(p: Program, f: nat, b: nat, run: Run)
    decreases run, 1, 0
  {
    && run.Through? && run.block == b && f < |p| && b < |p[f]| && p[f][b] != []
    && CallsOk(p, p[f][b], 0, run.calls)
    && match p[f][b][|p[f][b]| - 1]
       case Ret => run.next == Left
       case Branch(_, targets) =>
         run.next.Through? && run.next.block in targets && RunOk(p, f, run.next.block, run.next)
       case _ => false
  }

  predicate CallsOk(p: Program, b: Block, i: nat, calls: Calls)
    requires i <= |b|
    decreases calls, 0, |b| - i
  {
    if i == |b| then calls.NoCalls?
    else if b[i].CallTo? then
      calls.Call? && RunOk(p, b[i].target, 0, calls.callee) && CallsOk(p, b, i + 1, calls.others)
    else CallsOk(p, b, i + 1, calls)
  }

  /** The opcodes of the instructions a run executes, one by one. */
  function Trace(p: Program, f: nat, run: Run): seq<nat>
    decreases run, 1, 0
  {
    if run.Left? || f >= |p| || run.block >= |p[f]| then []
    else BlockTrace(p, p[f][run.block], 0, run.calls) + Trace(p, f, run.next)
  }

  function BlockTrace(p: Program, b: Block, i: nat, calls: Calls): seq<nat>
    requires i <= |b|
    decreases calls, 0, |b| - i
  {
    if i == |b| then []
    else if b[i].CallTo? && calls.Call? then
      [CALL] + Trace(p, b[i].target, calls.callee) + BlockTrace(p, b, i + 1, calls.others)
    else [Opcode(b[i])] + BlockTrace(p, b, i + 1, calls)
  }

  /** What the same run of an instrumented program does to the runtime. */
  function Execute(p: Program, f: nat, run: Run, s: Runtime): Runtime
    decreases run, 1, 0
  {
    if run.Left? || f >= |p| || run.block >= |p[f]| then s
    else Execute(p, f, run.next, ExecuteBlock(p, p[f][run.block], 0, run.calls, s))
  }

  function ExecuteBlock(p: Program, b: Block, i: nat, calls: Calls, s: Runtime): Runtime
    requires i <= |b|
    decreases calls, 0, |b| - i
  {
    if i == |b| then s
    else match b[i]
      case CallTo(g) =>
        if calls.Call? then ExecuteBlock(p, b, i + 1, calls.others, Execute(p, g, calls.callee, s))
        else ExecuteBlock(p, b, i + 1, calls, s)
      case UpdateCall(keys, values) =>
        if |keys| == |values| then
          ExecuteBlock(p, b, i + 1, calls, s.(counters := Updated(s.counters, keys, values, |keys|)))
        else s
      case PrintCall => ExecuteBlock(p, b, i + 1, calls, Report(s))
      case _ => ExecuteBlock(p, b, i + 1, calls, s)
  }

  // ----- Conservation -----

  function Occurrences(ops: seq<nat>, op: nat): nat {
    if ops == [] then 0 else Occurrences(ops[..|ops| - 1], op) + (if ops[|ops| - 1] == op then 1 else 0)
  }

  /** What has been reported for an opcode, and what is still to be. */
  function Total(s: Runtime, op: nat): nat {
    Reported(s.reports, op) + Get(s.counters, op)
  }

  function Reported(reports: seq<Counters>, op: nat): nat {
    if reports == [] then 0 else Reported(reports[..|reports| - 1], op) + Get(reports[|reports| - 1], op)
  }

  predicate SameModulo(a: int, b: int) {
    (a - b) % TWO32 == 0
  }

  lemma ModuloAdd(a: int, b: int, c: int, d: int)
    requires SameModulo(a, b) && SameModulo(c, d)
    ensures SameModulo(a + c, b + d)
  {
    var k, l := (a - b) / TWO32, (c - d) / TWO32;
    assert (a + c) - (b + d) == TWO32 * (k + l);
  }

  lemma ModuloTransitive(a: int, b: int, c: int)
    requires SameModulo(a, b) && SameModulo(b, c)
    ensures SameModulo(a, c)
  {
    ModuloAdd(a, b, b, c);
  }

  lemma {:induction false} OccurrencesConcat(a: seq<nat>, b: seq<nat>, op: nat)
    ensures Occurrences(a + b, op) == Occurrences(a, op) + Occurrences(b, op)
  {
    if b == [] {
      assert a + b == a;
    } else {
      OccurrencesConcat(a, b[..|b| - 1], op);
      assert (a + b)[..|a + b| - 1] == a + b[..|b| - 1];
    }
  }

  function Lookup(h: Histogram, op: nat): nat {
    if h == [] then 0 else (if h[0].key == op then h[0].count else 0) + Lookup(h[1..], op)
  }

  lemma {:induction false} BumpCounts(h: Histogram, key: nat, op: nat)
    ensures Lookup(Bump(h, key), op) == Lookup(h, op) + (if op == key then 1 else 0)
  {
    var r := Bump(h, key);
    if h == [] || key < h[0].key {
      assert r[1..] == h;
    } else if key == h[0].key {
      assert r[1..] == h[1..];
    } else {
      BumpCounts(h[1..], key, op);
      assert r[1..] == Bump(h[1..], key);
    }
  }

  /** How often an opcode occurs in the first n instructions. */
  function InBlock(b: Block, n: nat, op: nat): nat
    requires n <= |b|
  {
    if n == 0 then 0 else InBlock(b, n - 1, op) + (if Opcode(b[n - 1]) == op then 1 else 0)
  }

  lemma {:induction false} HistogramCounts(b: Block, n: nat, op: nat)
    requires n <= |b|
    ensures Lookup(HistogramOf(b, n), op) == InBlock(b, n, op)
  {
    if n > 0 {
      HistogramCounts(b, n - 1, op);
      BumpCounts(HistogramOf(b, n - 1), Opcode(b[n - 1]), op);
    }
  }

  lemma {:induction false} LookupSnoc(h: Histogram, e: Entry, op: nat)
    ensures Lookup(h + [e], op) == Lookup(h, op) + (if e.key == op then e.count else 0)
  {
    if h == [] {
      assert (h + [e])[1..] == [];
    } else {
      LookupSnoc(h[1..], e, op);
      assert (h + [e])[1..] == h[1..] + [e];
    }
  }

  lemma {:induction false} KeysAndValues(h: Histogram, k: nat)
    requires k < |h|
    ensures |Keys(h)| == |Values(h)| == |h| && Keys(h)[k] == h[k].key && Values(h)[k] == h[k].count % TWO32
  {
    if |h| > 1 { KeysAndValues(h[..|h| - 1], if k < |h| - 1 then k else 0); }
  }

  /** An update adds a histogram, modulo 2^32. */
  lemma {:induction false} UpdateAdds(m: Counters, h: Histogram, n: nat, op: nat)
    requires n <= |h| == |Keys(h)| == |Values(h)|
    ensures SameModulo(Get(Updated(m, Keys(h), Values(h), n), op), Get(m, op) + Lookup(h[..n], op))
  {
    if n > 0 {
      UpdateAdds(m, h, n - 1, op);
      KeysAndValues(h, n - 1);
      LookupSnoc(h[..n - 1], h[n - 1], op);
      assert h[..n] == h[..n - 1] + [h[n - 1]];
      var before := Updated(m, Keys(h), Values(h), n - 1);
      var e := h[n - 1];
      UpdateOneAdds(before, e.key, e.count, op);
      hide SameModulo, Get, UpdateOne, Lookup;
      var more := if e.key == op then e.count else 0;
      ModuloAdd(Get(before, op), Get(m, op) + Lookup(h[..n - 1], op), more, more);
      ModuloTransitive(Get(UpdateOne(before, e.key, e.count % TWO32), op), Get(before, op) + more,
        Get(m, op) + Lookup(h[..n], op));
    }
  }

  lemma UpdateOneAdds(m: Counters, key: nat, count: nat, op: nat)
    ensures SameModulo(Get(UpdateOne(m, key, count % TWO32), op), Get(m, op) + if key == op then count else 0)
  {
    if key == op {
      ModuloOf(count);
      if key in m {
        ModuloOf(m[key] + count % TWO32);
        ModuloAdd(m[key], m[key], count % TWO32, count);
        hide SameModulo;
        ModuloTransitive((m[key] + count % TWO32) % TWO32, m[key] + count % TWO32, m[key] + count);
      }
    }
  }

  lemma ModuloOf(a: nat)
    ensures SameModulo(a % TWO32, a)
  {
    assert a == TWO32 * (a / TWO32) + a % TWO32;
  }
}

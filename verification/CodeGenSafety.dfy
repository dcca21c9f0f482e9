/** No run of a generated function goes wrong: the only place where one can come to a halt is a call that does not
    return, and every load reads a slot that the same run has stored to. */
module CodeGenSafety {
  import opened Wrappers
  import opened KaleidoscopeAst
  import opened KaleidoscopeEval
  import opened Ir
  import opened CodeGenSpec
  import opened CodeGenScope
  import opened CodeGenRun
  import opened CodeGenLeak
  import opened CodeGenFunction

  /** A run that cannot go on has nothing after it. */
  lemma EndIsLast(f: Function, m: Machine, n: nat, k: nat, c: Config)
    requires Steps(f.blocks, m, n, c).Some? && !Step(f.blocks, m, Steps(f.blocks, m, n, c).value).Goto? && n < k
    ensures Steps(f.blocks, m, k, c).None?
  {
    if Steps(f.blocks, m, k, c).Some? {
      StepsPrefix(f.blocks, m, k, n + 1, c);
      StepsCompose(f.blocks, m, n, 1, c);
      assert false;
    }
  }

  lemma SameEnd(f: Function, m: Machine, n: nat, k: nat, c: Config)
    requires Steps(f.blocks, m, n, c).Some? && !Step(f.blocks, m, Steps(f.blocks, m, n, c).value).Goto?
    requires Steps(f.blocks, m, k, c).Some? && !Step(f.blocks, m, Steps(f.blocks, m, k, c).value).Goto?
    ensures n == k
  {
    if n < k { EndIsLast(f, m, n, k, c); }
    if k < n { EndIsLast(f, m, k, n, c); }
  }

  /** A run of a generated function halts at calls that do not return, and nowhere else. */
  lemma OnlyCallsHalt(params: seq<string>, body: Expr, funcs: map<string, nat>, f: Function, m: Machine,
          args: seq<Double>, w: World, n: nat)
    requires |params| == |args| && LeaksUnused(body)
    requires GenFunction(params, body, funcs, m.fp.zero, m.fp.one) == Some(f)
    requires Steps(f.blocks, m, n, Start(f, args, w)).Some?
    requires Step(f.blocks, m, Steps(f.blocks, m, n, Start(f, args, w)).value) == Halt
    ensures CallHangs(f, m, Steps(f.blocks, m, n, Start(f, args, w)).value)
  {
    hide GenFunction, Steps, Step;
    var c := Start(f, args, w);
    var c2 := FunctionFollows(params, body, funcs, f, m, args, w, n + 1);
    var out := Eval(body, ParamEnv(params, args, |params|), w, m, n + 1);
    match out
    case OutOfFuel => EndIsLast(f, m, n, n + 1, c);
    case Stuck =>
      var k: nat :| Steps(f.blocks, m, k, c) == Some(c2);
      HangsIsHalt(f, m, c2);
      SameEnd(f, m, n, k, c);
    case Done(v, _, w2) =>
      var k: nat :| Steps(f.blocks, m, k, c) == Some(c2);
      SameEnd(f, m, n, k, c);
  }

  ghost predicate LoadsFrom(f: Function, c: Config, slot: nat) {
    && c.block in f.blocks && c.pc < |f.blocks[c.block]|
    && f.blocks[c.block][c.pc].Load? && f.blocks[c.block][c.pc].slot == slot
  }

  ghost predicate StoresTo(f: Function, c: Config, slot: nat) {
    && c.block in f.blocks && c.pc < |f.blocks[c.block]|
    && f.blocks[c.block][c.pc].Store? && f.blocks[c.block][c.pc].slot == slot
  }

  /** Only stores initialize memory. */
  lemma {:induction false} InitializedByStore(f: Function, m: Machine, n: nat, c: Config, slot: nat) returns (k: nat)
    requires slot in c.mem && c.mem[slot].None? && Steps(f.blocks, m, n, c).Some?
    requires slot in Steps(f.blocks, m, n, c).value.mem && Steps(f.blocks, m, n, c).value.mem[slot].Some?
    ensures k < n && Steps(f.blocks, m, k, c).Some? && StoresTo(f, Steps(f.blocks, m, k, c).value, slot)
  {
    if StoresTo(f, c, slot) {
      k := 0;
    } else {
      var c1 := Step(f.blocks, m, c).c;
      assert slot in c1.mem && c1.mem[slot].None?;
      k := InitializedByStore(f, m, n - 1, c1, slot);
      k := k + 1;
    }
  }

  /** Every load of a run reads a slot that an earlier step of the same run has stored to. */
  lemma LoadsReadStored(params: seq<string>, body: Expr, funcs: map<string, nat>, f: Function, m: Machine,
          args: seq<Double>, w: World, n: nat, slot: nat)
    returns (k: nat)
    requires |params| == |args| && LeaksUnused(body)
    requires GenFunction(params, body, funcs, m.fp.zero, m.fp.one) == Some(f)
    requires Steps(f.blocks, m, n, Start(f, args, w)).Some?
    requires LoadsFrom(f, Steps(f.blocks, m, n, Start(f, args, w)).value, slot)
    ensures k < n && Steps(f.blocks, m, k, Start(f, args, w)).Some?
    ensures StoresTo(f, Steps(f.blocks, m, k, Start(f, args, w)).value, slot)
  {
    hide GenFunction, Steps;
    var c := Start(f, args, w);
    var c2 := Steps(f.blocks, m, n, c).value;
    if Step(f.blocks, m, c2) == Halt { OnlyCallsHalt(params, body, funcs, f, m, args, w, n); }
    assert slot in c2.mem && c2.mem[slot].Some?;
    SlotsStay(f, m, n, c);
    k := InitializedByStore(f, m, n, c, slot);
  }

  /** A run allocates nothing. */
  lemma {:induction false} SlotsStay(f: Function, m: Machine, n: nat, c: Config)
    requires Steps(f.blocks, m, n, c).Some?
    ensures Steps(f.blocks, m, n, c).value.mem.Keys == c.mem.Keys
  {
    if n > 0 { SlotsStay(f, m, n - 1, Step(f.blocks, m, c).c); }
  }
}

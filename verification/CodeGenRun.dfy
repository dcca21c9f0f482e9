/** Running generated code: what it means that a configuration stands where code generation stood, and how
    such runs compose. */
module CodeGenRun {
  import opened Wrappers
  import opened KaleidoscopeAst
  import opened KaleidoscopeEval
  import opened Ir
  import opened CodeGenSpec
  import opened CodeGenFrame
  import opened CodeGenScope

  /** The function f is what s becomes when everything has been generated. */
  ghost predicate Contains(f: Function, s: GenState) {
    && |s.allocas| <= |f.allocas|
    && forall b :: b in s.blocks ==> b in f.blocks && IsPrefix(s.blocks[b], f.blocks[b])
  }

  lemma ContainsEarlier(f: Function, s: GenState, t: GenState)
    requires Grows(s, t) && Contains(f, t)
    ensures Contains(f, s)
  {
    forall b | b in s.blocks ensures b in f.blocks && IsPrefix(s.blocks[b], f.blocks[b]) {
      if b != s.cur { assert SameBlock(s, t, b); }
    }
  }

  /** The next instruction to run is the next one to be generated. */
  ghost predicate At(s: GenState, c: Config) {
    s.cur in s.blocks && c.block == s.cur && c.pc == |s.blocks[s.cur]|
  }

  /** Memory holds the environment: the table gives each name of env, and no other, a slot with its value. */
  ghost predicate Matches(env: Env, s: GenState, c: Config) {
    forall x :: (x in env <==> Lookup(s, x).Some?)
      && (x in env ==> Lookup(s, x).value in c.mem && c.mem[Lookup(s, x).value] == Some(env[x]))
  }

  ghost predicate SlotsDistinct(s: GenState) {
    forall x, y :: Lookup(s, x).Some? && Lookup(s, x) == Lookup(s, y) ==> x == y
  }

  ghost predicate WellFormed(s: GenState) {
    WellNumbered(s) && SlotsExist(s) && SlotsDistinct(s)
  }

  ghost predicate Allocated(f: Function, c: Config) {
    forall k :: 0 <= k < |f.allocas| ==> k in c.mem
  }

  ghost predicate Ready(f: Function, m: Machine, s: GenState, c: Config, env: Env, w: World) {
    && WellFormed(s) && s.zero == m.fp.zero && s.one == m.fp.one
    && At(s, c) && Matches(env, s, c) && c.world == w && Allocated(f, c)
  }

  ghost predicate Owned(s: GenState, k: nat, names: set<string>) {
    exists x :: x in names && Lookup(s, x) == Some(k)
  }

  /** Between c and c2 no register in use at s has changed, and of the slots in use at s only those of names. */
  ghost predicate Keeps(s: GenState, c: Config, c2: Config, names: set<string>) {
    && c2.args == c.args
    && (forall t :: t in c.regs && t < s.nextTemp ==> t in c2.regs && c2.regs[t] == c.regs[t])
    && (forall k :: k in c.mem ==> k in c2.mem)
    && (forall k :: k in c.mem && k < |s.allocas| && !Owned(s, k, names) ==> c2.mem[k] == c.mem[k])
  }

  /** The table of t answers as that of s, and t is later. */
  ghost predicate SameScope(s: GenState, t: GenState) {
    && s.nextTemp <= t.nextTemp && |s.allocas| <= |t.allocas|
    && forall x :: Lookup(t, x) == Lookup(s, x)
  }

  lemma KeepsTransitive(s: GenState, t: GenState, c: Config, c1: Config, c2: Config, p: set<string>, q: set<string>)
    requires SameScope(s, t) && Keeps(s, c, c1, p) && Keeps(t, c1, c2, q)
    ensures Keeps(s, c, c2, p + q)
  {
    forall k | k in c.mem && k < |s.allocas| && !Owned(s, k, p + q) ensures c2.mem[k] == c.mem[k] {
      forall x | x in p ensures Lookup(s, x) != Some(k) { assert x in p + q; }
      assert !Owned(s, k, p);
      forall x | x in q ensures Lookup(t, x) != Some(k) { assert x in p + q; }
      assert !Owned(t, k, q);
    }
  }

  lemma KeepsMore(s: GenState, c: Config, c2: Config, p: set<string>, q: set<string>)
    requires Keeps(s, c, c2, p) && p <= q
    ensures Keeps(s, c, c2, q)
  {
    forall k | k in c.mem && k < |s.allocas| && !Owned(s, k, q) ensures c2.mem[k] == c.mem[k] {
      forall x | x in p ensures Lookup(s, x) != Some(k) { assert x in q; }
    }
  }

  /** A result that later code does not overwrite. */
  ghost predicate Lasting(v: Operand, s: GenState) {
    v.Temp? ==> v.id < s.nextTemp
  }

  lemma LastingValue(s: GenState, c: Config, c2: Config, names: set<string>, v: Operand)
    requires Lasting(v, s) && Keeps(s, c, c2, names) && Value(v, c).Some?
    ensures Value(v, c2) == Value(v, c)
  {}

  /** The run from c reached the point where r was generated, with the value and the state expected. */
  ghost predicate Arrived(s: GenState, c: Config, c2: Config, r: Result, names: set<string>, d: Double, env: Env,
          w: World) {
    && At(r.s, c2) && r.v.Some? && Lasting(r.v.value, r.s) && Value(r.v.value, c2) == Some(d)
    && Matches(env, r.s, c2) && c2.world == w
    && Keeps(s, c, c2, names)
  }

  /** The next instruction is a call, and it does not return. */
  ghost predicate CallHangs(f: Function, m: Machine, c: Config) {
    && c.block in f.blocks && c.pc < |f.blocks[c.block]| && f.blocks[c.block][c.pc].CallFn?
    && var i := f.blocks[c.block][c.pc];
       var vs := Values(i.args, c);
       vs.Some? && m.callee(c.world, i.callee, vs.value).None?
  }

  lemma HangsIsHalt(f: Function, m: Machine, c: Config)
    requires CallHangs(f, m, c)
    ensures Step(f.blocks, m, c) == Halt
  {}

  /** The run does what an unsuccessful evaluation says: it comes to a call that never returns at c2, or it goes
      on for at least as many steps as there was fuel. */
  ghost predicate Fails<T>(f: Function, m: Machine, c: Config, c2: Config, out: Outcome<T>, fuel: nat) {
    match out
    case Done(_, _, _) => false
    case Stuck => Reaches(f.blocks, m, c, c2) && CallHangs(f, m, c2)
    case OutOfFuel => Steps(f.blocks, m, fuel, c).Some?
  }

  /** The run from c does what out says. */
  ghost predicate Follows(f: Function, m: Machine, s: GenState, c: Config, c2: Config, out: Outcome<Double>,
          r: Result, names: set<string>, fuel: nat) {
    if out.Done? then Reaches(f.blocks, m, c, c2) && Arrived(s, c, c2, r, names, out.value, out.env, out.world)
    else Fails(f, m, c, c2, out, fuel)
  }

  lemma ReachesSelf(f: Function, m: Machine, c: Config)
    ensures Reaches(f.blocks, m, c, c)
  {
    assert Steps(f.blocks, m, 0, c) == Some(c);
  }

  lemma ReachesNext(f: Function, m: Machine, c: Config, c1: Config)
    requires Step(f.blocks, m, c) == Goto(c1)
    ensures Reaches(f.blocks, m, c, c1)
  {
    assert Steps(f.blocks, m, 0, c1) == Some(c1);
    assert Steps(f.blocks, m, 1, c) == Some(c1);
  }

  lemma ReachesTransitive(f: Function, m: Machine, a: Config, b: Config, c: Config)
    requires Reaches(f.blocks, m, a, b) && Reaches(f.blocks, m, b, c)
    ensures Reaches(f.blocks, m, a, c)
  {
    var n: nat :| Steps(f.blocks, m, n, a) == Some(b);
    var k: nat :| Steps(f.blocks, m, k, b) == Some(c);
    StepsCompose(f.blocks, m, n, k, a);
  }

  lemma FailsLater<T, U>(f: Function, m: Machine, c: Config, c1: Config, c2: Config, out: Outcome<T>, fuel: nat)
    requires Reaches(f.blocks, m, c, c1) && Fails(f, m, c1, c2, out, fuel)
    ensures Fails(f, m, c, c2, out, fuel) && Fails(f, m, c, c2, out.Fail<U>(), fuel)
  {
    if out.Stuck? {
      ReachesTransitive(f, m, c, c1, c2);
    } else {
      var n: nat :| Steps(f.blocks, m, n, c) == Some(c1);
      StepsCompose(f.blocks, m, n, fuel, c);
      StepsPrefix(f.blocks, m, n + fuel, fuel, c);
    }
  }

  /** A run that continues one that has kept its state. */
  lemma FollowsLater(f: Function, m: Machine, s: GenState, t: GenState, c: Config, c1: Config, c2: Config,
          out: Outcome<Double>, r: Result, p: set<string>, q: set<string>, fuel: nat)
    requires Reaches(f.blocks, m, c, c1) && SameScope(s, t) && Keeps(s, c, c1, p)
    requires Follows(f, m, t, c1, c2, out, r, q, fuel)
    ensures Follows(f, m, s, c, c2, out, r, p + q, fuel)
  {
    if out.Done? {
      ReachesTransitive(f, m, c, c1, c2);
      KeepsTransitive(s, t, c, c1, c2, p, q);
    } else {
      FailsLater<Double, Double>(f, m, c, c1, c2, out, fuel);
    }
  }

  lemma FollowsMore(f: Function, m: Machine, s: GenState, c: Config, c2: Config, out: Outcome<Double>, r: Result,
          p: set<string>, q: set<string>, fuel: nat)
    requires Follows(f, m, s, c, c2, out, r, p, fuel) && p <= q
    ensures Follows(f, m, s, c, c2, out, r, q, fuel)
  {
    if out.Done? { KeepsMore(s, c, c2, p, q); }
  }

  /** Running an instruction that sets the next register. */
  lemma DefineRuns(f: Function, m: Machine, s: GenState, i: Instr, c: Config, reg: Reg, w2: World, env: Env, w: World)
    returns (c2: Config)
    requires Ready(f, m, s, c, env, w) && Contains(f, Define(s, i).s)
    requires Execute(i, m, c) == Goto(c.(regs := c.regs[s.nextTemp := reg], world := w2, pc := c.pc + 1))
    ensures c2 == c.(regs := c.regs[s.nextTemp := reg], world := w2, pc := c.pc + 1)
    ensures Reaches(f.blocks, m, c, c2) && Ready(f, m, Define(s, i).s, c2, env, w2)
    ensures Keeps(s, c, c2, {}) && SameScope(s, Define(s, i).s)
  {
    c2 := c.(regs := c.regs[s.nextTemp := reg], world := w2, pc := c.pc + 1);
    ReachesNext(f, m, c, c2);
    var t := Define(s, i).s;
    DefineGrows(s, i);
    SameTableReady(f, m, s, t, c, c2, env);
  }

  /** A generator state that differs in code and registers only is as ready. */
  lemma SameTableReady(f: Function, m: Machine, s: GenState, t: GenState, c: Config, c2: Config, env: Env)
    requires WellFormed(s) && s.zero == m.fp.zero && s.one == m.fp.one && Matches(env, s, c) && Allocated(f, c)
    requires WellNumbered(t) && t.zero == s.zero && t.one == s.one && t.named == s.named
    requires s.nextTemp <= t.nextTemp && |s.allocas| <= |t.allocas|
    requires At(t, c2) && c2.mem == c.mem
    ensures Ready(f, m, t, c2, env, c2.world) && SameScope(s, t)
  {
    forall x ensures Lookup(t, x) == Lookup(s, x) {}
  }

  lemma SameScopeWellFormed(s: GenState, t: GenState)
    requires WellFormed(s) && WellNumbered(t) && SameScope(s, t)
    ensures WellFormed(t)
  {
    assert forall x :: Lookup(t, x) == Lookup(s, x);
  }

  lemma SameScopeTransitive(a: GenState, b: GenState, c: GenState)
    requires SameScope(a, b) && SameScope(b, c)
    ensures SameScope(a, c)
  {
    forall x ensures Lookup(c, x) == Lookup(a, x) { assert Lookup(b, x) == Lookup(a, x); }
  }

  /** t binds x to a slot that s does not have, and is otherwise as s. */
  ghost predicate Shadows(s: GenState, t: GenState, x: string) {
    && s.nextTemp <= t.nextTemp && |s.allocas| <= |t.allocas|
    && Lookup(t, x).Some? && |s.allocas| <= Lookup(t, x).value
    && forall y :: y != x ==> Lookup(t, y) == Lookup(s, y)
  }

  /** What runs inside the scope of x changes no x outside. */
  lemma KeepsThroughScope(s: GenState, t: GenState, x: string, c: Config, c1: Config, c2: Config, p: set<string>,
          q: set<string>)
    requires Shadows(s, t, x) && Keeps(s, c, c1, p) && Keeps(t, c1, c2, q)
    ensures Keeps(s, c, c2, p + (q - {x}))
  {
    forall k | k in c.mem && k < |s.allocas| && !Owned(s, k, p + (q - {x})) ensures c2.mem[k] == c.mem[k] {
      forall y | y in p ensures Lookup(s, y) != Some(k) { assert y in p + (q - {x}); }
      assert !Owned(s, k, p);
      forall y | y in q ensures Lookup(t, y) != Some(k) {
        if y != x { assert y in p + (q - {x}); }
      }
      assert !Owned(t, k, q);
    }
  }

  /** The value of an outer x survives what runs inside the scope of an inner one. */
  lemma OuterSurvives(s: GenState, t: GenState, x: string, c1: Config, c2: Config, q: set<string>, k: nat)
    requires SlotsExist(s) && SlotsDistinct(s) && Shadows(s, t, x) && Keeps(t, c1, c2, q)
    requires Lookup(s, x) == Some(k) && k in c1.mem
    ensures k in c2.mem && c2.mem[k] == c1.mem[k]
  {
    forall y | y in q ensures Lookup(t, y) != Some(k) {
      if y != x { assert Lookup(s, y) != Lookup(s, x) || Lookup(s, y).None?; }
    }
    assert !Owned(t, k, q);
  }

  /** When the scope of x ends, memory matches the environment with the outer x back. */
  lemma MatchesAfterScope(s: GenState, t: GenState, u: GenState, x: string, c: Config, outer: Env, inner: Env)
    requires Matches(inner, t, c)
    requires forall y :: Lookup(u, y) == if y == x then Lookup(s, x) else Lookup(t, y)
    requires x in outer <==> Lookup(s, x).Some?
    requires x in outer ==> Lookup(s, x).value in c.mem && c.mem[Lookup(s, x).value] == Some(outer[x])
    ensures Matches(Restore(inner, x, outer), u, c)
  {}
}

/** What live-variable-analysis is about: functions as graphs of blocks, the data-flow equations, and
    liveness itself, said with paths. */
module Liveness {
  /** What has a bit: the arguments and the instructions of the function. */
  datatype Value = Argument(index: nat) | Result(block: nat, pos: nat)

  /** Other operands, such as constants and blocks, have no bit. */
  datatype Operand = Val(v: Value) | Other

  datatype Incoming = Incoming(val: Operand, from: nat)

  datatype Instr =
    | Plain(operands: seq<Operand>)
    | Terminator(operands: seq<Operand>)
    | Phi(incoming: seq<Incoming>)

  datatype Block = Block(instrs: seq<Instr>, succs: seq<nat>, preds: seq<nat>)

  datatype Func = Func(numArgs: nat, blocks: seq<Block>)

  ghost predicate Exists(f: Func, v: Value) {
    match v
    case Argument(k) => k < f.numArgs
    case Result(b, i) => b < |f.blocks| && i < |f.blocks[b].instrs|
  }

  ghost predicate OperandExists(f: Func, o: Operand) {
    o.Val? ==> Exists(f, o.v)
  }

  ghost predicate InstrOk(f: Func, i: Instr) {
    match i
    case Phi(incoming) =>
      forall k :: 0 <= k < |incoming| ==> OperandExists(f, incoming[k].val) && incoming[k].from < |f.blocks|
    case _ => forall k :: 0 <= k < |i.operands| ==> OperandExists(f, i.operands[k])
  }

  ghost predicate InRange(bs: seq<nat>, n: nat) {
    forall k :: 0 <= k < |bs| ==> bs[k] < n
  }

  /** The two ends of an edge agree that it exists. */
  ghost predicate Linked(f: Func, b: nat, c: nat)
    requires b < |f.blocks| && c < |f.blocks|
  {
    c in f.blocks[b].succs <==> b in f.blocks[c].preds
  }

  ghost predicate BlockOk(f: Func, b: Block) {
    && b.instrs != []
    && (forall i :: 0 <= i < |b.instrs| ==> InstrOk(f, b.instrs[i]))
    && InRange(b.succs, |f.blocks|)
    && InRange(b.preds, |f.blocks|)
  }

  /** Blocks are never empty; predecessors are listed in any order and as often as there are edges. */
  ghost predicate WellFormed(f: Func) {
    && (forall b :: 0 <= b < |f.blocks| ==> BlockOk(f, f.blocks[b]))
    && (forall b: nat, c: nat :: b < |f.blocks| && c < |f.blocks| ==> Linked(f, b, c))
  }

  predicate PhiFree(f: Func) {
    forall b, i :: 0 <= b < |f.blocks| && 0 <= i < |f.blocks[b].instrs| ==> !f.blocks[b].instrs[i].Phi?
  }

  /** From block b control can only go to block c. */
  ghost predicate OnlySucc(f: Func, b: nat, c: nat) {
    b < |f.blocks| && f.blocks[b].succs != [] && forall x :: x in f.blocks[b].succs ==> x == c
  }

  /** From the blocks a phi reads values from, control can only go to the block of the phi: edges to blocks with phis
      are split, unless they are the only ones of their block. */
  ghost predicate EdgesSplit(f: Func) {
    forall c: nat, i: nat, k ::
      && c < |f.blocks| && i < |f.blocks[c].instrs| && f.blocks[c].instrs[i].Phi?
      && k in f.blocks[c].instrs[i].incoming && k.val.Val?
      ==> OnlySucc(f, k.from, c)
  }

  /** The number of bits given out before block b. */
  function Base(f: Func, b: nat): nat
    requires b <= |f.blocks|
  {
    if b == 0 then f.numArgs else Base(f, b - 1) + |f.blocks[b - 1].instrs|
  }

  function DomainSize(f: Func): nat {
    Base(f, |f.blocks|)
  }

  function Bit(f: Func, v: Value): nat {
    match v
    case Argument(k) => k
    case Result(b, i) => if b <= |f.blocks| then Base(f, b) + i else 0
  }

  lemma {:induction false} BaseMonotone(f: Func, b: nat, c: nat)
    requires b <= c <= |f.blocks|
    ensures f.numArgs <= Base(f, b) <= Base(f, c)
    ensures b < c ==> Base(f, b) + |f.blocks[b].instrs| <= Base(f, c)
    decreases c
  {
    if b < c { BaseMonotone(f, b, c - 1); } else if b > 0 { BaseMonotone(f, b - 1, b - 1); }
  }

  /** Different values have different bits. */
  lemma BitInjective(f: Func, v: Value, u: Value)
    requires Exists(f, v) && Exists(f, u)
    ensures Bit(f, v) == Bit(f, u) <==> v == u
    ensures Bit(f, v) < DomainSize(f)
  {
    BaseMonotone(f, 0, |f.blocks|);
    if v.Result? { BaseMonotone(f, v.block, |f.blocks|); }
    if v.Result? && u.Result? {
      if v.block < u.block { BaseMonotone(f, v.block, u.block); }
      if u.block < v.block { BaseMonotone(f, u.block, v.block); }
    } else if v.Result? {
      BaseMonotone(f, 0, v.block);
    } else if u.Result? {
      BaseMonotone(f, 0, u.block);
    }
  }

  /** And every bit stands for a value. */
  lemma {:induction false} BitOnto(f: Func, b: nat, k: nat) returns (v: Value)
    requires b <= |f.blocks| && k < Base(f, b)
    ensures Exists(f, v) && Bit(f, v) == k
  {
    if b == 0 {
      v := Argument(k);
    } else if k < Base(f, b - 1) {
      v := BitOnto(f, b - 1, k);
    } else {
      v := Result(b - 1, k - Base(f, b - 1));
    }
  }

  type Bits = set<nat>

  function OperandBits(f: Func, os: seq<Operand>): Bits {
    set o | o in os && o.Val? :: Bit(f, o.v)
  }

  /** The bits an instruction uses; a phi uses its operands elsewhere. */
  function UseBits(f: Func, b: nat, i: nat): Bits
    requires b < |f.blocks| && i < |f.blocks[b].instrs|
  {
    if f.blocks[b].instrs[i].Phi? then {} else OperandBits(f, f.blocks[b].instrs[i].operands)
  }

  /** Every instruction but a terminator defines the value it is. */
  function DefBits(f: Func, b: nat, i: nat): Bits
    requires b < |f.blocks| && i < |f.blocks[b].instrs|
  {
    if f.blocks[b].instrs[i].Terminator? then {} else {Bit(f, Result(b, i))}
  }

  /** The set before instruction i of block b, when after is the set at the end of the block. */
  function Before(f: Func, b: nat, i: nat, after: Bits): Bits
    requires b < |f.blocks| && i <= |f.blocks[b].instrs|
    decreases |f.blocks[b].instrs| - i
  {
    if i == |f.blocks[b].instrs| then after
    else Before(f, b, i + 1, after) - DefBits(f, b, i) + UseBits(f, b, i)
  }

  lemma {:induction false} BeforeMonotone(f: Func, b: nat, i: nat, p: Bits, q: Bits)
    requires b < |f.blocks| && i <= |f.blocks[b].instrs| && p <= q
    ensures Before(f, b, i, p) <= Before(f, b, i, q)
    decreases |f.blocks[b].instrs| - i
  {
    if i < |f.blocks[b].instrs| { BeforeMonotone(f, b, i + 1, p, q); }
  }

  lemma {:induction false} BeforeBounded(f: Func, b: nat, i: nat, after: Bits)
    requires WellFormed(f) && b < |f.blocks| && i <= |f.blocks[b].instrs|
    requires forall x :: x in after ==> x < DomainSize(f)
    ensures forall x :: x in Before(f, b, i, after) ==> x < DomainSize(f)
    decreases |f.blocks[b].instrs| - i
  {
    if i < |f.blocks[b].instrs| {
      BeforeBounded(f, b, i + 1, after);
      forall x | x in UseBits(f, b, i) ensures x < DomainSize(f) {
        var o :| o in f.blocks[b].instrs[i].operands && o.Val? && Bit(f, o.v) == x;
        BitInjective(f, o.v, o.v);
      }
    }
  }

  /** A set of bits for each block. */
  type BlockSets = seq<Bits>

  /** The union of in over a list of successors. */
  function Union(inn: BlockSets, succs: seq<nat>): Bits
    requires InRange(succs, |inn|)
  {
    if succs == [] then {} else Union(inn, succs[..|succs| - 1]) + inn[succs[|succs| - 1]]
  }

  lemma {:induction false} InUnion(inn: BlockSets, succs: seq<nat>, x: nat)
    requires InRange(succs, |inn|)
    ensures x in Union(inn, succs) <==> exists s :: s in succs && x in inn[s]
  {
    if succs != [] {
      InUnion(inn, succs[..|succs| - 1], x);
      assert succs == succs[..|succs| - 1] + [succs[|succs| - 1]];
    }
  }

  lemma UnionMonotone(inn: BlockSets, next: BlockSets, succs: seq<nat>)
    requires InRange(succs, |inn|) && InRange(succs, |next|)
    requires forall s :: s in succs ==> inn[s] <= next[s]
    ensures Union(inn, succs) <= Union(next, succs)
  {
    forall x | x in Union(inn, succs) ensures x in Union(next, succs) {
      InUnion(inn, succs, x);
      InUnion(next, succs, x);
    }
  }

  // ----- Liveness, said with paths -----

  /** A point of the program: just before an instruction. */
  datatype Point = Point(block: nat, pos: nat)

  ghost predicate IsPoint(f: Func, p: Point) {
    p.block < |f.blocks| && p.pos < |f.blocks[p.block].instrs|
  }

  /** Control may go from p straight to q. */
  ghost predicate Follows(f: Func, p: Point, q: Point)
    requires IsPoint(f, p)
  {
    if p.pos + 1 < |f.blocks[p.block].instrs| then q == Point(p.block, p.pos + 1)
    else q.block in f.blocks[p.block].succs && q.pos == 0
  }

  ghost predicate UsesValue(f: Func, p: Point, v: Value)
    requires IsPoint(f, p)
  {
    var i := f.blocks[p.block].instrs[p.pos];
    !i.Phi? && Val(v) in i.operands
  }

  ghost predicate DefinesValue(f: Func, p: Point, v: Value)
    requires IsPoint(f, p)
  {
    !f.blocks[p.block].instrs[p.pos].Terminator? && v == Result(p.block, p.pos)
  }

  /** Some phi reads v when control comes to it from block b. */
  ghost predicate PhiReads(f: Func, b: nat, v: Value) {
    exists c: nat, i: nat ::
      && c < |f.blocks| && i < |f.blocks[c].instrs| && f.blocks[c].instrs[i].Phi?
      && Incoming(Val(v), b) in f.blocks[c].instrs[i].incoming
  }

  /** The operand of a phi is read at the end of the block it comes from. */
  ghost predicate ReadAfter(f: Func, p: Point, v: Value)
    requires IsPoint(f, p)
  {
    p.pos + 1 == |f.blocks[p.block].instrs| && !DefinesValue(f, p, v) && PhiReads(f, p.block, v)
  }

  /** The path leads to a use of v, and nothing on the way to it defines v. */
  ghost predicate LivePath(f: Func, path: seq<Point>, v: Value) {
    && path != []
    && IsPoint(f, path[0])
    && if |path| == 1 then UsesValue(f, path[0], v) || ReadAfter(f, path[0], v)
       else !DefinesValue(f, path[0], v) && Follows(f, path[0], path[1]) && LivePath(f, path[1..], v)
  }

  /** The use at the end of the path is not that of a phi. */
  ghost predicate EndsInUse(f: Func, path: seq<Point>, v: Value)
    requires path != []
  {
    IsPoint(f, path[|path| - 1]) && UsesValue(f, path[|path| - 1], v)
  }

  lemma {:induction false} LivePathEnd(f: Func, path: seq<Point>, v: Value)
    requires LivePath(f, path, v)
    ensures var p := path[|path| - 1];
      IsPoint(f, p) && (UsesValue(f, p, v) || ReadAfter(f, p, v))
    decreases |path|
  {
    if |path| > 1 { LivePathEnd(f, path[1..], v); }
  }

  /** v is live just before p. */
  ghost predicate Live(f: Func, p: Point, v: Value) {
    exists path: seq<Point> :: LivePath(f, path, v) && path[0] == p
  }

  /** The path follows edges to a block without successors. */
  ghost predicate ExitPath(f: Func, path: seq<nat>) {
    && path != []
    && path[0] < |f.blocks|
    && if |path| == 1 then f.blocks[path[0]].succs == []
       else path[1] in f.blocks[path[0]].succs && ExitPath(f, path[1..])
  }

  /** The function can be left from block b. */
  ghost predicate ReachesExit(f: Func, b: nat) {
    exists path :: ExitPath(f, path) && path[0] == b
  }

  lemma ReachesExitBefore(f: Func, b: nat, s: nat)
    requires b < |f.blocks| && s in f.blocks[b].succs && ReachesExit(f, s)
    ensures ReachesExit(f, b)
  {
    var path :| ExitPath(f, path) && path[0] == s;
    var longer := [b] + path;
    assert longer[1..] == path;
    assert ExitPath(f, longer);
  }

  /** v is live just before p on a path into blocks from which the function can be left. */
  ghost predicate LiveToExit(f: Func, p: Point, v: Value) {
    exists path: seq<Point> :: LivePath(f, path, v) && path[0] == p && ReachesExit(f, path[|path| - 1].block)
  }

  lemma LiveBefore(f: Func, p: Point, q: Point, v: Value)
    requires IsPoint(f, p) && Follows(f, p, q) && LiveToExit(f, q, v) && !DefinesValue(f, p, v)
    ensures LiveToExit(f, p, v)
  {
    hide IsPoint, Follows, DefinesValue, UsesValue, ReadAfter, ReachesExit;
    var path: seq<Point> :| LivePath(f, path, v) && path[0] == q && ReachesExit(f, path[|path| - 1].block);
    var longer := [p] + path;
    assert longer[1..] == path;
    assert LivePath(f, longer, v);
  }

  /** The bits of the uses and definitions of an instruction are those of its values. */
  lemma BitsOfValues(f: Func, p: Point, v: Value)
    requires WellFormed(f) && IsPoint(f, p) && Exists(f, v)
    ensures Bit(f, v) in UseBits(f, p.block, p.pos) <==> UsesValue(f, p, v)
    ensures Bit(f, v) in DefBits(f, p.block, p.pos) <==> DefinesValue(f, p, v)
  {
    var i := f.blocks[p.block].instrs[p.pos];
    BitInjective(f, v, Result(p.block, p.pos));
    if !i.Phi? {
      if Bit(f, v) in OperandBits(f, i.operands) {
        var o :| o in i.operands && o.Val? && Bit(f, o.v) == Bit(f, v);
        assert InstrOk(f, i);
        BitInjective(f, v, o.v);
      }
    }
  }

  /** Sets that may only be too large: nothing that flows backwards is lost. */
  ghost predicate Closed(f: Func, inn: BlockSets, out: BlockSets, within: set<nat>) {
    && WellFormed(f) && |inn| == |out| == |f.blocks|
    && forall b: nat :: b in within ==>
      b < |f.blocks| && Union(inn, f.blocks[b].succs) <= out[b] && Before(f, b, 0, out[b]) <= inn[b]
  }

  /** Along a live path every set that is closed holds the bit, if the set at the end of the last block has it or the
      last instruction uses the value. */
  lemma {:induction false} LivePathInClosed(f: Func, inn: BlockSets, out: BlockSets, within: set<nat>,
          path: seq<Point>, v: Value)
    requires Closed(f, inn, out, within) && LivePath(f, path, v) && Exists(f, v)
    requires forall k :: 0 <= k < |path| ==> path[k].block in within
    requires EndsInUse(f, path, v) || Bit(f, v) in out[path[|path| - 1].block]
    ensures Bit(f, v) in Before(f, path[0].block, path[0].pos, out[path[0].block])
    decreases |path|
  {
    var p := path[0];
    BitsOfValues(f, p, v);
    if |path| > 1 {
      assert path[1..][|path[1..]| - 1] == path[|path| - 1];
      LivePathInClosed(f, inn, out, within, path[1..], v);
      if p.pos + 1 == |f.blocks[p.block].instrs| {
        InUnion(inn, f.blocks[p.block].succs, Bit(f, v));
      }
    }
  }

  /** Sets that may only be too small: every bit stands for a value live on a path to an exit. */
  ghost predicate Justified(f: Func, inn: BlockSets) {
    && WellFormed(f) && |inn| == |f.blocks|
    && forall b: nat, v :: b < |f.blocks| && Exists(f, v) && Bit(f, v) in inn[b] ==> LiveToExit(f, Point(b, 0), v)
  }

  /** The same for what is added at the end of each block on behalf of phis. */
  ghost predicate Read(f: Func, b: nat, extra: Bits) {
    forall v :: Exists(f, v) && Bit(f, v) in extra ==> PhiReads(f, b, v)
  }

  lemma {:induction false} BeforeJustified(f: Func, inn: BlockSets, extra: Bits, b: nat, i: nat, v: Value)
    requires Justified(f, inn) && b < |f.blocks| && i < |f.blocks[b].instrs| && ReachesExit(f, b) && Exists(f, v)
    requires Read(f, b, extra) && Bit(f, v) in Before(f, b, i, Union(inn, f.blocks[b].succs) + extra)
    ensures LiveToExit(f, Point(b, i), v)
    decreases |f.blocks[b].instrs| - i
  {
    var p := Point(b, i);
    BitsOfValues(f, p, v);
    if UsesValue(f, p, v) || ReadAfter(f, p, v) {
      assert LivePath(f, [p], v);
    } else if i + 1 < |f.blocks[b].instrs| {
      BeforeJustified(f, inn, extra, b, i + 1, v);
      LiveBefore(f, p, Point(b, i + 1), v);
    } else {
      InUnion(inn, f.blocks[b].succs, Bit(f, v));
      var s :| s in f.blocks[b].succs && Bit(f, v) in inn[s];
      LiveBefore(f, p, Point(s, 0), v);
    }
  }
}

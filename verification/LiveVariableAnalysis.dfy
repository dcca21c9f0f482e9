/** The analysis itself, with the fields it updates, proved to take the steps of LiveVariables and to end
    with exactly the live values. */
module LiveVariableAnalysis {
  import opened Liveness
  import opened LiveVariables

  /** What is left of the in-sets once the values phis read are added at all successors. */
  ghost predicate Widened(f: Func, inn: BlockSets, neighbour: map<nat, Bits>, n: nat, widened: BlockSets)
    requires n <= |f.blocks| == |inn| == |widened|
  {
    forall c: nat, x: nat :: c < |f.blocks| ==>
      (x in widened[c] <==> x in inn[c] || exists b: nat :: b < n && c in f.blocks[b].succs && x in At(neighbour, b))
  }

  lemma IncomingBitsSnoc(f: Func, incoming: seq<Incoming>, k: nat, p: nat)
    requires k < |incoming|
    ensures IncomingBits(f, incoming[..k + 1], p) == IncomingBits(f, incoming[..k], p)
         + (if incoming[k].from == p && incoming[k].val.Val? then {Bit(f, incoming[k].val.v)} else {})
  {
    assert incoming[..k + 1] == incoming[..k] + [incoming[k]];
  }

  lemma UnionSnoc(inn: BlockSets, succs: seq<nat>, k: nat)
    requires InRange(succs, |inn|) && k < |succs|
    ensures InRange(succs[..k], |inn|) && InRange(succs[..k + 1], |inn|)
    ensures Union(inn, succs[..k + 1]) == Union(inn, succs[..k]) + inn[succs[k]]
  {
    assert succs[..k + 1][..k] == succs[..k];
  }

  lemma RequeuedSnoc(preds: seq<nat>, changed: bool, visited: set<nat>, k: nat)
    requires k < |preds|
    ensures Requeued(preds[..k + 1], changed, visited)
         == Requeued(preds[..k], changed, visited) + (if changed || preds[k] !in visited then [preds[k]] else [])
  {
    assert preds[..k + 1][..k] == preds[..k];
  }

  class LiveVariable {
    var domain: seq<Value>
    var valueToBit: map<Value, nat>
    var domainSize: nat
    var inn: seq<Bits>
    var out: seq<Bits>
    var neighbour: map<nat, Bits>
    var visited: set<nat>
    var instrIn: seq<seq<Bits>>

    ghost function State(): Facts
      reads this
    {
      Facts(inn, out, neighbour, visited, instrIn)
    }

    /** The index gives every value its bit. */
    ghost predicate Indexed(f: Func)
      reads this`valueToBit, this`domainSize
    {
      && (forall v :: v in valueToBit <==> Exists(f, v))
      && (forall v :: v in valueToBit ==> valueToBit[v] == Bit(f, v))
      && domainSize == DomainSize(f)
    }

    constructor ()
      ensures State() == Facts([], [], map[], {}, [])
    {
      domain, valueToBit, domainSize := [], map[], 0;
      inn, out, neighbour, visited, instrIn := [], [], map[], {}, [];
    }

    method BuildIndex(f: Func)
      requires WellFormed(f)
      modifies this`domain, this`valueToBit, this`domainSize
      ensures Indexed(f)
      ensures |domain| == domainSize && forall v :: Exists(f, v) ==> Bit(f, v) < |domain| && domain[Bit(f, v)] == v
    {
      domain, valueToBit := [], map[];
      var index := 0;
      for k := 0 to f.numArgs
        invariant index == |domain| == k
        invariant forall v :: v in valueToBit <==> v.Argument? && v.index < k
        invariant forall v :: v in valueToBit ==> valueToBit[v] == Bit(f, v) < |domain| && domain[Bit(f, v)] == v
      {
        domain := domain + [Argument(k)];
        valueToBit := valueToBit[Argument(k) := index];
        index := index + 1;
      }
      for b := 0 to |f.blocks|
        invariant index == |domain| == Base(f, b)
        invariant forall v :: v in valueToBit <==> Exists(f, v) && (v.Result? ==> v.block < b)
        invariant forall v :: v in valueToBit ==> valueToBit[v] == Bit(f, v) < |domain| && domain[Bit(f, v)] == v
      {
        for i := 0 to |f.blocks[b].instrs|
          invariant index == |domain| == Base(f, b) + i
          invariant forall v :: (v in valueToBit <==>
            Exists(f, v) && (v.Result? ==> v.block < b || (v.block == b && v.pos < i)))
          invariant forall v :: v in valueToBit ==> valueToBit[v] == Bit(f, v) < |domain| && domain[Bit(f, v)] == v
        {
          domain := domain + [Result(b, i)];
          valueToBit := valueToBit[Result(b, i) := index];
          index := index + 1;
        }
      }
      domainSize := |domain|;
    }

    /** Adds the bits of the operands of an instruction. */
    method AddOperands(f: Func, operands: seq<Operand>, before: Bits) returns (bits: Bits)
      requires Indexed(f) && forall k :: 0 <= k < |operands| ==> OperandExists(f, operands[k])
      ensures bits == before + OperandBits(f, operands)
    {
      bits := before;
      for k := 0 to |operands|
        invariant bits == before + OperandBits(f, operands[..k])
      {
        if operands[k].Val? { bits := bits + {valueToBit[operands[k].v]}; }
      }
      assert operands[..|operands|] == operands;
    }

    /** Notes what a phi reads, for the blocks it reads it from. */
    method AddIncoming(f: Func, incoming: seq<Incoming>)
      requires Indexed(f) && InstrOk(f, Phi(incoming))
      modifies this`neighbour
      ensures forall p: nat :: At(neighbour, p) == old(At(neighbour, p)) + IncomingBits(f, incoming, p)
    {
      for k := 0 to |incoming|
        invariant forall p: nat :: At(neighbour, p) == old(At(neighbour, p)) + IncomingBits(f, incoming[..k], p)
      {
        forall p: nat
          ensures IncomingBits(f, incoming[..k + 1], p) == IncomingBits(f, incoming[..k], p)
               + (if incoming[k].from == p && incoming[k].val.Val? then {Bit(f, incoming[k].val.v)} else {})
        {
          IncomingBitsSnoc(f, incoming, k, p);
        }
        var val, from := incoming[k].val, incoming[k].from;
        if val.Val? {
          if from !in neighbour { neighbour := neighbour[from := {}]; }
          neighbour := neighbour[from := neighbour[from] + {valueToBit[val.v]}];
        }
      }
      assert incoming[..|incoming|] == incoming;
    }

    /** One instruction, from the set after it to the set before it, which is stored. */
    method TransferInstr(f: Func, b: nat, i: nat, after: Bits) returns (immIn: Bits)
      requires Shaped(f, State()) && Indexed(f) && b < |f.blocks| && i < |f.blocks[b].instrs|
      modifies this`instrIn, this`neighbour
      ensures Shaped(f, State())
      ensures immIn == after - DefBits(f, b, i) + UseBits(f, b, i)
      ensures instrIn == old(instrIn)[b := old(instrIn)[b][i := immIn]]
      ensures var instr := f.blocks[b].instrs[i];
        forall p: nat :: At(neighbour, p) == old(At(neighbour, p))
          + (if instr.Phi? then IncomingBits(f, instr.incoming, p) else {})
    {
      assert BlockOk(f, f.blocks[b]) && InstrOk(f, f.blocks[b].instrs[i]);
      hide WellFormed, InRange, IncomingBits, OperandBits;
      var instr := f.blocks[b].instrs[i];
      immIn := after;
      if !instr.Terminator? { immIn := immIn - {valueToBit[Result(b, i)]}; }
      if instr.Phi? {
        AddIncoming(f, instr.incoming);
      } else {
        immIn := AddOperands(f, instr.operands, immIn);
      }
      instrIn := instrIn[b := instrIn[b][i := immIn]];
    }

    /** From the end of the block to its start, instruction by instruction. */
    method TransferFunc(f: Func, b: nat) returns (immIn: Bits)
      requires Shaped(f, State()) && Indexed(f) && b < |f.blocks|
      modifies this`instrIn, this`neighbour
      ensures Shaped(f, State())
      ensures immIn == Before(f, b, 0, out[b])
      ensures forall c: nat :: c < |f.blocks| && c != b ==> instrIn[c] == old(instrIn)[c]
      ensures forall i: nat :: i < |f.blocks[b].instrs| ==> instrIn[b][i] == Before(f, b, i, out[b])
      ensures forall p: nat :: At(neighbour, p) == old(At(neighbour, p)) + PhiBits(f, b, 0, p)
    {
      hide WellFormed, Indexed, IncomingBits, OperandBits, UseBits, DefBits;
      var instrs := f.blocks[b].instrs;
      immIn := out[b];
      var i := |instrs|;
      while i > 0
        invariant 0 <= i <= |instrs|
        invariant Shaped(f, State())
        invariant immIn == Before(f, b, i, out[b])
        invariant forall c: nat :: c < |f.blocks| && c != b ==> instrIn[c] == old(instrIn)[c]
        invariant forall j: nat :: i <= j < |instrs| ==> instrIn[b][j] == Before(f, b, j, out[b])
        invariant forall p: nat :: At(neighbour, p) == old(At(neighbour, p)) + PhiBits(f, b, i, p)
      {
        i := i - 1;
        immIn := TransferInstr(f, b, i, immIn);
      }
    }

    /** The union of the in-sets of the successors and of what the phis of neighbours read, or nothing at an exit. */
    method Meet(f: Func, cur: nat) returns (bits: Bits)
      requires Shaped(f, State()) && cur < |f.blocks|
      ensures bits == MeetOut(f, State(), cur)
    {
      assert BlockOk(f, f.blocks[cur]);
      var succs := f.blocks[cur].succs;
      bits := out[cur];
      for k := 0 to |succs|
        invariant InRange(succs[..k], |inn|)
        invariant k > 0 ==> bits == Union(inn, succs[..k])
      {
        UnionSnoc(inn, succs, k);
        if k == 0 {
          bits := inn[succs[k]];
        } else {
          bits := bits + inn[succs[k]];
        }
      }
      assert succs[..|succs|] == succs;
      if cur in neighbour { bits := bits + neighbour[cur]; }
      if |succs| == 0 { bits := {}; }
    }

    method Requeue(f: Func, cur: nat, changed: bool, w: seq<nat>) returns (w2: seq<nat>)
      requires cur < |f.blocks|
      ensures w2 == w + Requeued(f.blocks[cur].preds, changed, visited)
    {
      var preds := f.blocks[cur].preds;
      w2 := w;
      for k := 0 to |preds|
        invariant w2 == w + Requeued(preds[..k], changed, visited)
      {
        RequeuedSnoc(preds, changed, visited, k);
        if changed || preds[k] !in visited { w2 := w2 + [preds[k]]; }
      }
      assert preds[..|preds|] == preds;
    }

    method PerformBackwardAnalysis(f: Func, w: seq<nat>) returns (w2: seq<nat>)
      requires Shaped(f, State()) && Indexed(f) && w != [] && w[0] < |f.blocks|
      modifies this`inn, this`out, this`neighbour, this`visited, this`instrIn
      ensures Step(f, old(State()), w, State(), w2)
    {
      var cur, rest := w[0], w[1..];
      visited := visited + {cur};
      var bits := Meet(f, cur);
      assert bits == MeetOut(f, old(State()), cur);
      out := out[cur := bits];
      var newIn := TransferFunc(f, cur);
      var changed := newIn != inn[cur];
      if changed { inn := inn[cur := newIn]; }
      w2 := Requeue(f, cur, changed, rest);
      assert inn == old(inn)[cur := newIn];
    }

    /** The worklist starts with the blocks without successors. */
    method InitializeWorklist(f: Func) returns (w: seq<nat>)
      ensures forall b: nat :: b in w <==> b < |f.blocks| && f.blocks[b].succs == []
    {
      w := [];
      for b := 0 to |f.blocks|
        invariant forall c: nat :: c in w <==> c < b && f.blocks[c].succs == []
      {
        if |f.blocks[b].succs| == 0 { w := w + [b]; }
      }
    }

    /** In the end the values that phis read from a block are added at all its successors. */
    method FinalizeBackwardAnalysis(f: Func)
      requires WellFormed(f) && |inn| == |f.blocks|
      modifies this`inn
      ensures |inn| == |f.blocks| && Widened(f, old(inn), neighbour, |f.blocks|, inn)
    {
      for b := 0 to |f.blocks|
        invariant |inn| == |f.blocks| && Widened(f, old(inn), neighbour, b, inn)
      {
        assert BlockOk(f, f.blocks[b]);
        ghost var before := inn;
        if b in neighbour {
          var succs := f.blocks[b].succs;
          for k := 0 to |succs|
            invariant |inn| == |f.blocks|
            invariant forall c: nat :: c < |f.blocks| ==>
              inn[c] == before[c] + (if c in succs[..k] then neighbour[b] else {})
          {
            assert succs[..k + 1] == succs[..k] + [succs[k]];
            inn := inn[succs[k] := inn[succs[k]] + neighbour[b]];
          }
          assert succs[..|succs|] == succs;
          assert forall c: nat :: c < |f.blocks| ==> inn[c] == before[c] + (if c in succs then neighbour[b] else {});
        }
      }
    }

    /** All sets start empty, also those kept for each instruction. */
    method InitFlowValues(f: Func)
      requires WellFormed(f)
      modifies this`inn, this`out, this`visited, this`instrIn
      ensures visited == {} && |inn| == |out| == |instrIn| == |f.blocks|
      ensures forall b: nat :: b < |f.blocks| ==> inn[b] == {} && out[b] == {} && |instrIn[b]| == |f.blocks[b].instrs|
      ensures forall b: nat, i: nat :: b < |f.blocks| && i < |f.blocks[b].instrs| ==> instrIn[b][i] == {}
    {
      visited, inn, out, instrIn := {}, [], [], [];
      for b := 0 to |f.blocks|
        invariant visited == {} && |inn| == |out| == |instrIn| == b
        invariant forall c: nat :: c < b ==> inn[c] == {} && out[c] == {} && |instrIn[c]| == |f.blocks[c].instrs|
        invariant forall c: nat, i: nat :: c < b && i < |f.blocks[c].instrs| ==> instrIn[c][i] == {}
      {
        var sets: seq<Bits> := [];
        for i := 0 to |f.blocks[b].instrs|
          invariant |sets| == i && forall j :: 0 <= j < i ==> sets[j] == {}
        {
          sets := sets + [{}];
        }
        inn, out, instrIn := inn + [{}], out + [{}], instrIn + [sets];
      }
    }

    /** One round of the loop, which keeps the invariant and comes closer to the end. */
    method Round(f: Func, w: seq<nat>) returns (w2: seq<nat>)
      requires Inv(f, State(), w) && Indexed(f) && w != [] && |inn| == |f.blocks|
      modifies this`inn, this`out, this`neighbour, this`visited, this`instrIn
      ensures Inv(f, State(), w2) && |inn| == |f.blocks|
      ensures 0 <= BitsLeft(f, inn, |f.blocks|) <= old(BitsLeft(f, inn, |f.blocks|))
      ensures Unvisited(f, visited) <= old(Unvisited(f, visited))
      ensures BitsLeft(f, inn, |f.blocks|) == old(BitsLeft(f, inn, |f.blocks|)) &&
              Unvisited(f, visited) == old(Unvisited(f, visited))
          ==> Repeats(w2, visited) < old(Repeats(w, visited))
    {
      hide Inv, Step, Shaped, BitsLeft, Unvisited, Repeats, WellFormed;
      QueueShaped(f, State(), w);
      w2 := PerformBackwardAnalysis(f, w);
      StepKeepsInv(f, old(State()), w, State(), w2);
      StepDecreases(f, old(State()), w, State(), w2);
      QueueShaped(f, State(), w2);
    }

    method Start(f: Func) returns (worklist: seq<nat>)
      requires WellFormed(f) && neighbour == map[]
      modifies this`inn, this`out, this`visited, this`instrIn
      ensures Inv(f, State(), worklist) && |inn| == |f.blocks|
    {
      InitFlowValues(f);
      worklist := InitializeWorklist(f);
      InvAtStart(f, State(), worklist);
    }

    /** The worklist loop always ends; computed holds the in-sets before phis widen them. */
    method RunOnFunction(f: Func) returns (ghost computed: BlockSets)
      requires WellFormed(f) && Indexed(f) && neighbour == map[]
      modifies this`inn, this`out, this`neighbour, this`visited, this`instrIn
      ensures Inv(f, State().(inn := computed), [])
      ensures |inn| == |f.blocks| && Widened(f, computed, neighbour, |f.blocks|, inn)
    {
      hide Inv, Shaped, BitsLeft, Unvisited, Repeats, WellFormed, Indexed, PhiFree;
      var worklist := Start(f);
      while worklist != []
        invariant Inv(f, State(), worklist) && Indexed(f) && |inn| == |f.blocks|
        decreases BitsLeft(f, inn, |f.blocks|), Unvisited(f, visited), Repeats(worklist, visited)
      {
        worklist := Round(f, worklist);
      }
      computed := inn;
      assert State() == State().(inn := computed);
      QueueShaped(f, State(), []);
      FinalizeBackwardAnalysis(f);
    }

    /** Everything for one function; computed are the in-sets before phis widen them. */
    method EvalFunc(f: Func) returns (ghost computed: BlockSets)
      requires WellFormed(f)
      modifies this
      ensures Indexed(f) && Shaped(f, State()) && Shaped(f, State().(inn := computed))
      ensures OnlyLive(f, State()) && UsesAreLive(f, State()) && PhiReadsAreLive(f, State())
      ensures ExactWhenKept(f, State())
      ensures BelowSolutions(f, State().(inn := computed))
      ensures EdgesSplit(f) ==>
        ExactlyLive(f, State()) && InSetsExact(f, State()) && Least(f, State().(inn := computed))
      ensures PhiFree(f) ==> computed == inn
    {
      hide Inv, OnlyLive, UsesAreLive, PhiReadsAreLive, BelowSolutions, ExactlyLive, InSetsExact, Least, PhiFree,
        EdgesSplit, Widened, ExactWhenKept;
      neighbour := map[];
      BuildIndex(f);
      computed := RunOnFunction(f);
      ResultMeans(f, State().(inn := computed), State());
    }
  }

  /** A bit set before an instruction stands for a value that is live there. */
  ghost predicate OnlyLive(f: Func, t: Facts)
    requires Shaped(f, t)
  {
    forall p, v :: IsPoint(f, p) && Exists(f, v) && Bit(f, v) in t.instrIn[p.block][p.pos] ==> LiveToExit(f, p, v)
  }

  /** The bits set before an instruction are those of the values live there on a way out of the function, and of
      all live values just when code that never leaves the function uses none. */
  ghost predicate ExactlyLive(f: Func, t: Facts)
    requires Shaped(f, t)
  {
    && (forall p, v :: IsPoint(f, p) && Exists(f, v) ==>
      (Bit(f, v) in t.instrIn[p.block][p.pos] <==> LiveToExit(f, p, v)))
    && (NothingUsedInEndlessCode(f) <==> forall p, v :: IsPoint(f, p) && Exists(f, v) ==>
      (Bit(f, v) in t.instrIn[p.block][p.pos] <==> Live(f, p, v)))
  }

  /** For every function: a use that is not that of a phi is found from every point from which it can be reached, on the
      way out of the function, without a definition in between. */
  ghost predicate UsesAreLive(f: Func, t: Facts)
    requires Shaped(f, t)
  {
    forall path, v :: UsedOnWayOut(f, path, v) ==> HasBit(f, t, path, v)
  }

  ghost predicate UsedOnWayOut(f: Func, path: seq<Point>, v: Value) {
    && Exists(f, v) && LivePath(f, path, v) && EndsInUse(f, path, v)
    && ReachesExit(f, path[|path| - 1].block)
  }

  ghost predicate HasBit(f: Func, t: Facts, path: seq<Point>, v: Value) {
    && path != [] && path[0].block < |t.instrIn| && path[0].pos < |t.instrIn[path[0].block]|
    && Bit(f, v) in t.instrIn[path[0].block][path[0].pos]
  }

  /** For every function: what a phi reads from a block that only leads to the block of the phi is live before the last
      instruction of that block, unless this defines it. */
  ghost predicate PhiReadsAreLive(f: Func, t: Facts)
    requires Shaped(f, t)
  {
    forall c: nat, j: nat, b: nat, v :: ReadsFromPlainEdge(f, c, j, b, v) && b in t.visited ==>
      && Bit(f, v) in t.out[b]
      && (!DefinesValue(f, Last(f, b), v) ==> HasBit(f, t, [Last(f, b)], v))
  }

  ghost predicate ReadsFromPlainEdge(f: Func, c: nat, j: nat, b: nat, v: Value) {
    && Exists(f, v) && OnlySucc(f, b, c) && c < |f.blocks| && f.blocks[b].instrs != []
    && j < |f.blocks[c].instrs| && f.blocks[c].instrs[j].Phi?
    && Incoming(Val(v), b) in f.blocks[c].instrs[j].incoming
  }

  function Last(f: Func, b: nat): Point
    requires b < |f.blocks| && f.blocks[b].instrs != []
  {
    Point(b, |f.blocks[b].instrs| - 1)
  }

  /** For every function: all sets are exact if and only if none has lost what a phi reads where it is read. */
  ghost predicate ExactWhenKept(f: Func, t: Facts)
    requires Shaped(f, t)
  {
    ReadsKept(f, t) <==> forall p, v :: IsPoint(f, p) && Exists(f, v) ==> ExactBefore(f, t, p, v)
  }

  /** The in-set of a block has the values live at its beginning, and those that phis read at the end of a block before
      it from which the function can be left. */
  ghost predicate InSetsExact(f: Func, t: Facts)
    requires Shaped(f, t)
  {
    forall c: nat, v :: c < |f.blocks| && Exists(f, v) ==>
      (Bit(f, v) in t.inn[c] <==> LiveToExit(f, Point(c, 0), v) || ReadBefore(f, c, v))
  }

  ghost predicate ReadBefore(f: Func, c: nat, v: Value) {
    exists b: nat :: b < |f.blocks| && c in f.blocks[b].succs && PhiReads(f, b, v) && ReachesExit(f, b)
  }

  /** The block sets are below all solutions of the equations. */
  ghost predicate BelowSolutions(f: Func, t: Facts)
    requires Shaped(f, t)
  {
    forall inn, out :: Solution(f, inn, out) ==> Below(f, t, inn, out)
  }

  /** And they are a solution just when blocks that never leave the function ask for nothing. */
  ghost predicate Least(f: Func, t: Facts)
    requires Shaped(f, t)
  {
    BelowSolutions(f, t) && (Solution(f, t.inn, t.out) <==> EndlessBlocksAskNothing(f))
  }

  lemma ResultMeans(f: Func, s: Facts, t: Facts)
    requires Inv(f, s, []) && t == s.(inn := t.inn)
    requires |t.inn| == |f.blocks| && Widened(f, s.inn, s.neighbour, |f.blocks|, t.inn)
    ensures Shaped(f, s) && Shaped(f, t)
    ensures OnlyLive(f, t) && UsesAreLive(f, t) && PhiReadsAreLive(f, t) && BelowSolutions(f, s)
    ensures ExactWhenKept(f, t)
    ensures EdgesSplit(f) ==> ExactlyLive(f, t) && InSetsExact(f, t) && Least(f, s)
    ensures PhiFree(f) ==> s.inn == t.inn
  {
    assert Shaped(f, t);
    hide Inv, Live, LiveToExit, Widened, WellFormed, ExactlyLive, Least, PhiFree, EdgesSplit, InSetsExact,
      BelowSolutions, ExactWhenKept;
    forall p, v | IsPoint(f, p) && Exists(f, v) && Bit(f, v) in t.instrIn[p.block][p.pos] ensures LiveToExit(f, p, v) {
      InstrSetsSound(f, s, [], p, v);
    }
    AllUsesFound(f, s, t);
    AllPhiReadsFound(f, s, t);
    AllKept(f, s, t);
    AllBelow(f, s);
    if EdgesSplit(f) {
      AllExact(f, s, t);
      InSetsAreExact(f, s, t);
    }
    if PhiFree(f) { NothingToWiden(f, s, t.inn); }
  }

  lemma AllUsesFound(f: Func, s: Facts, t: Facts)
    requires Inv(f, s, []) && t == s.(inn := t.inn) && Shaped(f, t)
    ensures UsesAreLive(f, t)
  {
    assert Shaped(f, s);
    hide Inv, LivePath, ReachesExit, WellFormed;
    forall path, v | UsedOnWayOut(f, path, v) ensures HasBit(f, t, path, v) {
      LivePathEnd(f, path, v);
      UseIsFound(f, s, path, v);
    }
  }

  lemma AllPhiReadsFound(f: Func, s: Facts, t: Facts)
    requires Inv(f, s, []) && t == s.(inn := t.inn) && Shaped(f, t)
    ensures PhiReadsAreLive(f, t)
  {
    hide Inv, OnlySucc, WellFormed;
    forall c: nat, j: nat, b: nat, v | ReadsFromPlainEdge(f, c, j, b, v) && b in t.visited
      ensures Bit(f, v) in t.out[b] && (!DefinesValue(f, Last(f, b), v) ==> HasBit(f, t, [Last(f, b)], v))
    {
      PhiReadIsLive(f, s, c, j, b, v);
    }
  }

  lemma AllKept(f: Func, s: Facts, t: Facts)
    requires Inv(f, s, []) && t == s.(inn := t.inn) && Shaped(f, s) && Shaped(f, t)
    ensures ExactWhenKept(f, t)
  {
    hide Inv, LiveToExit, ReadAfter, WellFormed;
    ExactIffReadsKept(f, s);
    assert ReadsKept(f, s) <==> ReadsKept(f, t);
    forall p, v | IsPoint(f, p) && Exists(f, v) ensures ExactBefore(f, s, p, v) <==> ExactBefore(f, t, p, v) {}
  }

  lemma AllBelow(f: Func, s: Facts)
    requires Inv(f, s, []) && Shaped(f, s)
    ensures BelowSolutions(f, s)
  {
    hide Inv, Solution, Below, WellFormed;
    LeastSolution(f, s);
  }

  lemma AllExact(f: Func, s: Facts, t: Facts)
    requires Inv(f, s, []) && t == s.(inn := t.inn) && Shaped(f, s) && Shaped(f, t) && EdgesSplit(f)
    ensures ExactlyLive(f, t) && Least(f, s)
  {
    hide Inv, Live, LiveToExit, Solution, NothingUsedInEndlessCode, EndlessBlocksAskNothing, Below, WellFormed,
      EdgesSplit;
    forall p, v | IsPoint(f, p) && Exists(f, v)
      ensures Bit(f, v) in s.instrIn[p.block][p.pos] <==> LiveToExit(f, p, v)
    {
      InstrSetsExact(f, s, p, v);
    }
    LeastSolution(f, s);
    LivenessExactIff(f, s);
  }

  lemma InSetsAreExact(f: Func, s: Facts, t: Facts)
    requires Inv(f, s, []) && Shaped(f, s) && Shaped(f, t) && EdgesSplit(f)
    requires |t.inn| == |f.blocks| && Widened(f, s.inn, s.neighbour, |f.blocks|, t.inn)
    ensures InSetsExact(f, t)
  {
    hide Inv, LiveToExit, PhiReads, ReachesExit, EdgesSplit, WellFormed;
    forall c: nat, v | c < |f.blocks| && Exists(f, v)
      ensures Bit(f, v) in t.inn[c] <==> LiveToExit(f, Point(c, 0), v) || ReadBefore(f, c, v)
    {
      InSetBefore(f, s, c, v);
      forall b: nat | b < |f.blocks|
        ensures Bit(f, v) in At(s.neighbour, b) <==> PhiReads(f, b, v) && ReachesExit(f, b)
      {
        NotedExactly(f, s, b, v);
      }
    }
  }

  lemma InSetBefore(f: Func, s: Facts, c: nat, v: Value)
    requires Inv(f, s, []) && EdgesSplit(f) && c < |f.blocks| && Exists(f, v)
    ensures |s.inn| == |f.blocks| && (Bit(f, v) in s.inn[c] <==> LiveToExit(f, Point(c, 0), v))
  {
    assert Shaped(f, s) && BlockOk(f, f.blocks[c]);
    InstrSetsExact(f, s, Point(c, 0), v);
    hide LiveToExit, Frontier, Noted, Exact, Queued, AllJustified;
    if c !in s.visited { assert s.inn[c] == {} == s.instrIn[c][0]; }
  }

  /** With split edges what has been noted for a block is what phis read at its end, if the function can be left from
      there. */
  lemma NotedExactly(f: Func, s: Facts, b: nat, v: Value)
    requires Inv(f, s, []) && EdgesSplit(f) && b < |f.blocks| && Exists(f, v)
    ensures Bit(f, v) in At(s.neighbour, b) <==> PhiReads(f, b, v) && ReachesExit(f, b)
  {
    VisitedIffReachesExit(f, s, b);
    hide Inv, ReachesExit, PhiReads, EdgesSplit;
    if Bit(f, v) in At(s.neighbour, b) { NotedIsRead(f, s, b, v); }
    if PhiReads(f, b, v) && ReachesExit(f, b) { ReadIsNoted(f, s, b, v); }
  }

  lemma NotedIsRead(f: Func, s: Facts, b: nat, v: Value)
    requires Inv(f, s, []) && EdgesSplit(f) && b < |f.blocks| && Exists(f, v) && Bit(f, v) in At(s.neighbour, b)
    ensures PhiReads(f, b, v) && b in s.visited
  {
    hide Inv, PhiBits, EdgesSplit, PhiReads, ReachesExit, Queued, WellFormed;
    InvParts(f, s);
    assert Read(f, b, At(s.neighbour, b));
    hide AllJustified;
    var c: nat :| c in s.visited && Asks(f, c, b, Bit(f, v));
    AskedByOnlySucc(f, c, b, Bit(f, v));
    assert c in f.blocks[b].succs && Linked(f, b, c) by { EdgeLinked(f, b, c); }
  }

  lemma EdgeLinked(f: Func, b: nat, c: nat)
    requires WellFormed(f) && OnlySucc(f, b, c) && c < |f.blocks|
    ensures c in f.blocks[b].succs && Linked(f, b, c)
  {
    assert f.blocks[b].succs[0] in f.blocks[b].succs;
  }

  lemma InvParts(f: Func, s: Facts)
    requires Inv(f, s, [])
    ensures Shaped(f, s) && Noted(f, s) && Queued(f, s.visited, []) && Frontier(f, s.visited, []) && AllJustified(f, s)
  {}

  lemma ReadIsNoted(f: Func, s: Facts, b: nat, v: Value)
    requires Inv(f, s, []) && EdgesSplit(f) && b in s.visited && Exists(f, v) && PhiReads(f, b, v)
    ensures Bit(f, v) in At(s.neighbour, b)
  {
    hide Inv, Queued, PhiBits, PhiAsked, Frontier, AllJustified, WellFormed;
    InvParts(f, s);
    var c: nat, i: nat :| c < |f.blocks| && i < |f.blocks[c].instrs| && f.blocks[c].instrs[i].Phi?
      && Incoming(Val(v), b) in f.blocks[c].instrs[i].incoming;
    PhiReadIsAsked(f, c, i, b, v);
    OnlySuccVisited(f, s, b, c);
    assert Asks(f, c, b, Bit(f, v));
  }

  lemma InvAtStart(f: Func, s: Facts, w: seq<nat>)
    requires Shaped(f, s) && Untouched(f, s) && s.visited == {} && s.neighbour == map[]
    requires forall b: nat :: b in w <==> b < |f.blocks| && f.blocks[b].succs == []
    ensures Inv(f, s, w)
  {
    forall b: nat | b in w ensures ReachesExit(f, b) { assert ExitPath(f, [b]); }
  }

  lemma QueueShaped(f: Func, s: Facts, w: seq<nat>)
    requires Inv(f, s, w)
    ensures WellFormed(f) && Shaped(f, s) && |s.inn| == |f.blocks|
    ensures w != [] ==> w[0] < |f.blocks|
  {
    assert w != [] ==> w[0] in w;
  }

  lemma NothingToWiden(f: Func, s: Facts, widened: BlockSets)
    requires Inv(f, s, []) && PhiFree(f) && |widened| == |f.blocks|
    requires Widened(f, s.inn, s.neighbour, |f.blocks|, widened)
    ensures widened == s.inn
  {
    assert Noted(f, s);
    hide Inv, PhiBits;
    forall b: nat, x: nat ensures x !in At(s.neighbour, b) {
      if x in At(s.neighbour, b) {
        var c: nat :| c in s.visited && Asks(f, c, b, x);
        InPhiBits(f, c, 0, b, x);
      }
    }
    assert forall c: nat :: c < |f.blocks| ==> widened[c] == s.inn[c];
  }
}

/** The pass that puts the counting calls into a function, and the runtime they call, with the state each updates. */
module Instrumentation {
  import opened Profiling

  lemma OneMore(f: Function, b: nat, blocks: seq<Block>)
    requires b < |f| && forall k :: 0 <= k < |f| ==> f[k] != []
    requires |InstrumentedFunction(f, b)| == b && blocks == InstrumentedFunction(f, b) + f[b..]
    ensures |InstrumentedFunction(f, b + 1)| == b + 1
    ensures blocks[b := Instrumented(f[b])] == InstrumentedFunction(f, b + 1) + f[b + 1..]
  {
    hide Instrumented;
  }

  class FunctionBody {
    var blocks: seq<Block>

    constructor (blocks: seq<Block>)
      ensures this.blocks == blocks
    {
      this.blocks := blocks;
    }

    /** Counts the opcodes of a block, and notices a return. */
    static method Count(b: Block) returns (cdi: Histogram, flag: bool)
      ensures cdi == HistogramOf(b, |b|) && flag == HasReturn(b, |b|)
    {
      cdi, flag := [], false;
      for i := 0 to |b|
        invariant cdi == HistogramOf(b, i) && flag == HasReturn(b, i)
      {
        cdi := Bump(cdi, Opcode(b[i]));
        if Opcode(b[i]) == RET { flag := true; }
      }
    }

    /** The two constant arrays made from the counts. */
    static method Arrays(cdi: Histogram) returns (k: seq<nat>, v: seq<nat>)
      ensures k == Keys(cdi) && v == Values(cdi)
    {
      k, v := [], [];
      for i := 0 to |cdi|
        invariant k == Keys(cdi[..i]) && v == Values(cdi[..i])
      {
        assert cdi[..i + 1][..i] == cdi[..i];
        k, v := k + [cdi[i].key], v + [cdi[i].count % TWO32];
      }
      assert cdi[..|cdi|] == cdi;
    }

    /** The call that updates goes before the terminator, the one that reports between the two. */
    static method InstrumentBlock(b: Block) returns (block: Block)
      requires b != []
      ensures block == Instrumented(b)
    {
      var cdi, flag := Count(b);
      var k, v := Arrays(cdi);
      var n := |b| - 1;
      block := b[..n] + [UpdateCall(k, v)] + b[n..];
      if flag { block := block[..|block| - 1] + [PrintCall] + block[|block| - 1..]; }
    }

    method RunOnFunction()
      requires forall b :: 0 <= b < |blocks| ==> blocks[b] != []
      modifies this
      ensures blocks == InstrumentedFunction(old(blocks), |old(blocks)|)
    {
      hide Instrumented;
      ghost var was := blocks;
      for b := 0 to |blocks|
        invariant |InstrumentedFunction(was, b)| == b && blocks == InstrumentedFunction(was, b) + was[b..]
      {
        assert blocks[b] == was[b];
        var block := InstrumentBlock(blocks[b]);
        OneMore(was, b, blocks);
        blocks := blocks[b := block];
      }
    }
  }

  class ProfileRuntime {
    var instrMap: Counters
    var printed: seq<Counters>

    ghost function State(): Runtime
      reads this
    {
      Runtime(instrMap, printed)
    }

    constructor ()
      ensures State() == Runtime(map[], [])
    {
      instrMap, printed := map[], [];
    }

    method UpdateInstrInfo(num: nat, keys: array<nat>, values: array<nat>)
      requires num <= keys.Length && num <= values.Length
      modifies this`instrMap
      ensures instrMap == Updated(old(instrMap), keys[..num], values[..num], num)
    {
      for i := 0 to num
        invariant instrMap == Updated(old(instrMap), keys[..num], values[..num], i)
      {
        var key, value := keys[i], values[i];
        if key !in instrMap {
          instrMap := instrMap[key := value];
        } else {
          instrMap := instrMap[key := (instrMap[key] + value) % TWO32];
        }
      }
    }

    method PrintOutInstrInfo()
      modifies this
      ensures State() == Report(old(State()))
    {
      printed := printed + [instrMap];
      instrMap := map[];
    }
  }
}

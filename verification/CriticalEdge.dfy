/** An edge that is not split, from a block with two successors to one with a phi, and a value that the analysis
    misses: the block is looked at before the phi has been seen, and not again afterwards. */
module CriticalEdge {
  import opened Liveness
  import opened LiveVariables

  /** Block 0 defines a value and leads to the exit 1 and to block 2, whose phi reads the value; 3 is the exit behind
      it. */
  function Example(): Func {
    Func(0, [
      Block([Plain([]), Terminator([])], [1, 2], []),
      Block([Terminator([])], [], [0]),
      Block([Phi([Incoming(Val(Result(0, 0)), 0)]), Terminator([])], [3], [0]),
      Block([Terminator([])], [], [2])])
  }

  /** All sets are empty. */
  function Empty(neighbour: map<nat, Bits>, visited: set<nat>): Facts {
    Facts([{}, {}, {}, {}], [{}, {}, {}, {}], neighbour, visited, [[{}, {}], [{}], [{}, {}], [{}]])
  }

  lemma ExampleIsWellFormed()
    ensures WellFormed(Example())
  {
    var f := Example();
    forall b: nat | b < |f.blocks| ensures BlockOk(f, f.blocks[b]) {
      assert b == 0 || b == 1 || b == 2 || b == 3;
    }
    hide BlockOk;
    forall b: nat, c: nat | b < |f.blocks| && c < |f.blocks| ensures Linked(f, b, c) {
      assert (b == 0 || b == 1 || b == 2 || b == 3) && (c == 0 || c == 1 || c == 2 || c == 3);
    }
  }

  lemma ExampleIsShaped(neighbour: map<nat, Bits>, visited: set<nat>)
    requires forall b :: b in visited ==> b < 4
    ensures Shaped(Example(), Empty(neighbour, visited))
  {
    hide WellFormed;
    ExampleIsWellFormed();
  }

  lemma {:induction false} NothingUsed(b: nat, i: nat)
    requires b < 4 && i <= |Example().blocks[b].instrs|
    ensures Before(Example(), b, i, {}) == {}
    decreases |Example().blocks[b].instrs| - i
  {
    var f := Example();
    if i < |f.blocks[b].instrs| {
      NothingUsed(b, i + 1);
      assert UseBits(f, b, i) == {};
    }
  }

  lemma PhiBitsOfExample(b: nat, p: nat)
    requires b < 4
    ensures PhiBits(Example(), b, 0, p) == if b == 2 && p == 0 then {0} else {}
  {
    var f := Example();
    assert Bit(f, Result(0, 0)) == 0;
    if b == 2 {
      var incoming := f.blocks[2].instrs[0].incoming;
      assert IncomingBits(f, incoming, p) == if p == 0 then {0} else {} by {
        assert Incoming(Val(Result(0, 0)), 0) in incoming;
      }
      assert PhiBits(f, 2, 2, p) == {} && PhiBits(f, 2, 1, p) == {};
    } else if |f.blocks[b].instrs| == 2 {
      assert PhiBits(f, b, 2, p) == {} && PhiBits(f, b, 1, p) == {};
    } else {
      assert PhiBits(f, b, 1, p) == {};
    }
  }

  ghost predicate Round(s: Facts, w: seq<nat>, t: Facts, w2: seq<nat>) {
    Shaped(Example(), s) && w != [] && w[0] < 4 && Step(Example(), s, w, t, w2)
  }

  lemma NothingAsked(b: nat, neighbour: map<nat, Bits>, visited: set<nat>)
    requires b < 4 && (forall c :: c in visited ==> c < 4) && At(neighbour, b) == {}
    ensures Shaped(Example(), Empty(neighbour, visited)) && MeetOut(Example(), Empty(neighbour, visited), b) == {}
  {
    var f, s := Example(), Empty(neighbour, visited);
    ExampleIsShaped(neighbour, visited);
    hide Shaped, PhiBits;
    var succs := f.blocks[b].succs;
    assert InRange(succs, 4) && forall c: nat :: c < 4 ==> s.inn[c] == {};
    if x :| x in Union(s.inn, succs) { InUnion(s.inn, succs, x); }
  }

  /** A round on block b, when nothing is asked for. */
  lemma QuietRound(b: nat, w: seq<nat>, neighbour: map<nat, Bits>, visited: set<nat>, after: map<nat, Bits>,
          w2: seq<nat>)
    requires b < 4 && w != [] && w[0] == b && (forall c :: c in visited ==> c < 4) && At(neighbour, b) == {}
    requires forall p: nat :: At(after, p) == At(neighbour, p) + PhiBits(Example(), b, 0, p)
    requires w2 == w[1..] + Requeued(Example().blocks[b].preds, false, visited + {b})
    ensures Round(Empty(neighbour, visited), w, Empty(after, visited + {b}), w2)
  {
    var f, s, t := Example(), Empty(neighbour, visited), Empty(after, visited + {b});
    NothingAsked(b, neighbour, visited);
    ExampleIsShaped(after, visited + {b});
    hide Shaped, MeetOut, PhiBits, Before, WellFormed, Requeued;
    forall i: nat | i <= |f.blocks[b].instrs| ensures Before(f, b, i, {}) == {} { NothingUsed(b, i); }
    assert b == 0 || b == 1 || b == 2 || b == 3;
    assert t.out == s.out[b := {}] && t.inn == s.inn[b := {}];
  }

  /** The worklist loop on the example, round by round: in the end the bit of the value is not set before the last
      instruction of block 0, although the value is live there. */
  lemma PhiReadIsLost()
    ensures var noted := map[0 := {0}];
      && Round(Empty(map[], {}), [1, 3], Empty(map[], {1}), [3, 0])
      && Round(Empty(map[], {1}), [3, 0], Empty(map[], {1, 3}), [0, 2])
      && Round(Empty(map[], {1, 3}), [0, 2], Empty(map[], {0, 1, 3}), [2])
      && Round(Empty(map[], {0, 1, 3}), [2], Empty(noted, {0, 1, 2, 3}), [])
      && Bit(Example(), Result(0, 0)) !in Empty(noted, {0, 1, 2, 3}).instrIn[0][1]
    ensures LiveToExit(Example(), Point(0, 1), Result(0, 0)) && !EdgesSplit(Example())
  {
    FirstRounds();
    LastRounds();
    LiveInExample();
  }

  lemma FirstRounds()
    ensures Round(Empty(map[], {}), [1, 3], Empty(map[], {1}), [3, 0])
    ensures Round(Empty(map[], {1}), [3, 0], Empty(map[], {1, 3}), [0, 2])
  {
    hide Round, Empty;
    forall b: nat, p: nat | b < 4 ensures PhiBits(Example(), b, 0, p) == if b == 2 && p == 0 then {0} else {} {
      PhiBitsOfExample(b, p);
    }
    assert {} + {1} == {1} && {1} + {3} == {1, 3};
    assert Requeued([0], false, {1}) == [0] && Requeued([2], false, {1, 3}) == [2];
    QuietRound(1, [1, 3], map[], {}, map[], [3, 0]);
    QuietRound(3, [3, 0], map[], {1}, map[], [0, 2]);
  }

  lemma LastRounds()
    ensures Round(Empty(map[], {1, 3}), [0, 2], Empty(map[], {0, 1, 3}), [2])
    ensures Round(Empty(map[], {0, 1, 3}), [2], Empty(map[0 := {0}], {0, 1, 2, 3}), [])
  {
    hide Round, Empty;
    forall b: nat, p: nat | b < 4 ensures PhiBits(Example(), b, 0, p) == if b == 2 && p == 0 then {0} else {} {
      PhiBitsOfExample(b, p);
    }
    assert {1, 3} + {0} == {0, 1, 3} && {0, 1, 3} + {2} == {0, 1, 2, 3};
    assert Requeued([], false, {0, 1, 3}) == [] && Requeued([0], false, {0, 1, 2, 3}) == [];
    QuietRound(0, [0, 2], map[], {1, 3}, map[], [2]);
    QuietRound(2, [2], map[], {0, 1, 3}, map[0 := {0}], []);
  }

  lemma LiveInExample()
    ensures LiveToExit(Example(), Point(0, 1), Result(0, 0)) && !EdgesSplit(Example())
  {
    var f, p, k := Example(), Point(0, 1), Incoming(Val(Result(0, 0)), 0);
    assert k in f.blocks[2].instrs[0].incoming;
    assert ReadAfter(f, p, Result(0, 0));
    assert LivePath(f, [p], Result(0, 0));
    assert ExitPath(f, [1]);
    ReachesExitBefore(f, 0, 1);
    assert 1 in f.blocks[0].succs && !OnlySucc(f, 0, 2);
  }
}

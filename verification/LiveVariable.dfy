/** The worklist algorithm of live-variable-analysis, and the proof that it ends with exactly the live
    values in every set. */
module LiveVariables {
  import opened Liveness

  /** What the analysis keeps for a function. */
  datatype Facts = Facts(
    inn: BlockSets, out: BlockSets, neighbour: map<nat, Bits>, visited: set<nat>, instrIn: seq<seq<Bits>>)

  function At(m: map<nat, Bits>, b: nat): Bits {
    if b in m then m[b] else {}
  }

  /** The bits that a phi with these entries reads at the end of block p. */
  function IncomingBits(f: Func, incoming: seq<Incoming>, p: nat): Bits {
    set k | k in incoming && k.from == p && k.val.Val? :: Bit(f, k.val.v)
  }

  /** The bits that the phis of block b from instruction i on read at the end of block p. */
  function PhiBits(f: Func, b: nat, i: nat, p: nat): Bits
    requires b < |f.blocks| && i <= |f.blocks[b].instrs|
    decreases |f.blocks[b].instrs| - i
  {
    if i == |f.blocks[b].instrs| then {}
    else
      var here := f.blocks[b].instrs[i];
      PhiBits(f, b, i + 1, p) + (if here.Phi? then IncomingBits(f, here.incoming, p) else {})
  }

  ghost predicate Shaped(f: Func, s: Facts) {
    && WellFormed(f)
    && |s.inn| == |s.out| == |s.instrIn| == |f.blocks|
    && (forall b: nat :: b < |f.blocks| ==> |s.instrIn[b]| == |f.blocks[b].instrs|)
    && (forall b: nat :: b in s.visited ==> b < |f.blocks|)
  }

  /** The set at the end of block b that its successors and its neighbours' phis ask for. */
  ghost function MeetOut(f: Func, s: Facts, b: nat): Bits
    requires Shaped(f, s) && b < |f.blocks|
  {
    if f.blocks[b].succs == [] then {} else Union(s.inn, f.blocks[b].succs) + At(s.neighbour, b)
  }

  /** The predecessors to be looked at again. */
  function Requeued(preds: seq<nat>, changed: bool, visited: set<nat>): seq<nat> {
    if preds == [] then []
    else
      var last := preds[|preds| - 1];
      Requeued(preds[..|preds| - 1], changed, visited) + (if changed || last !in visited then [last] else [])
  }

  /** One round of the worklist loop, on the first block of w. */
  ghost predicate Step(f: Func, s: Facts, w: seq<nat>, t: Facts, w2: seq<nat>)
    requires Shaped(f, s) && w != [] && w[0] < |f.blocks|
  {
    var b := w[0];
    var out := MeetOut(f, s, b);
    var inn := Before(f, b, 0, out);
    && Shaped(f, t)
    && t.out == s.out[b := out] && t.inn == s.inn[b := inn] && t.visited == s.visited + {b}
    && (forall c: nat :: c < |f.blocks| && c != b ==> t.instrIn[c] == s.instrIn[c])
    && (forall i: nat :: i < |f.blocks[b].instrs| ==> t.instrIn[b][i] == Before(f, b, i, out))
    && (forall p: nat :: At(t.neighbour, p) == At(s.neighbour, p) + PhiBits(f, b, 0, p))
    && w2 == w[1..] + Requeued(f.blocks[b].preds, inn != s.inn[b], t.visited)
  }

  ghost predicate Bounded(f: Func, x: Bits) {
    forall k :: k in x ==> k < DomainSize(f)
  }

  ghost predicate AllBounded(f: Func, s: Facts)
    requires Shaped(f, s)
  {
    forall b: nat :: b < |f.blocks| ==> Bounded(f, s.inn[b]) && Bounded(f, At(s.neighbour, b))
  }

  /** Who is on the worklist, and who must still be. */
  ghost predicate Frontier(f: Func, visited: set<nat>, w: seq<nat>)
    requires WellFormed(f)
    requires forall b: nat :: b in visited ==> b < |f.blocks|
  {
    && (forall b: nat :: b in w || b in visited ==> b < |f.blocks| && ReachesExit(f, b))
    && (forall b: nat, p: nat :: b in visited && p in f.blocks[b].preds ==> p in visited || p in w)
    && (forall b: nat :: b < |f.blocks| && f.blocks[b].succs == [] ==> b in visited || b in w)
  }

  ghost predicate Untouched(f: Func, s: Facts)
    requires Shaped(f, s)
  {
    && (forall b: nat :: b < |f.blocks| && b !in s.visited ==> s.inn[b] == {} && s.out[b] == {})
    && (forall b: nat, i: nat :: b < |f.blocks| && b !in s.visited && i < |f.blocks[b].instrs| ==>
      s.instrIn[b][i] == {})
  }

  /** Every set of a visited block comes from its out, which may lag behind what is asked for. */
  ghost predicate Computed(f: Func, s: Facts)
    requires Shaped(f, s)
  {
    && (forall b: nat :: b in s.visited ==> s.inn[b] == Before(f, b, 0, s.out[b]) && s.out[b] <= MeetOut(f, s, b))
    && (forall b: nat, i: nat :: b in s.visited && i < |f.blocks[b].instrs| ==>
      s.instrIn[b][i] == Before(f, b, i, s.out[b]))
  }

  /** Every bit stands for a live value. */
  ghost predicate AllJustified(f: Func, s: Facts)
    requires Shaped(f, s)
  {
    Justified(f, s.inn) && forall b: nat :: Read(f, b, At(s.neighbour, b))
  }

  /** A phi of block c reads the bit x at the end of block p. */
  ghost predicate Asks(f: Func, c: nat, p: nat, x: nat) {
    c < |f.blocks| && x in PhiBits(f, c, 0, p)
  }

  /** What has been noted for block p are the bits that phis of visited blocks read at its end. */
  ghost predicate NotedFor(f: Func, visited: set<nat>, p: nat, x: nat) {
    exists c: nat :: c in visited && Asks(f, c, p, x)
  }

  ghost predicate Noted(f: Func, s: Facts)
    requires Shaped(f, s)
  {
    forall p: nat, x: nat :: x in At(s.neighbour, p) <==> NotedFor(f, s.visited, p, x)
  }

  /** Blocks get onto the worklist from their successors. */
  ghost predicate Queued(f: Func, visited: set<nat>, w: seq<nat>) {
    forall b: nat :: (b in w || b in visited) && b < |f.blocks| && f.blocks[b].succs != [] ==>
      exists c: nat :: c in f.blocks[b].succs && c in visited
  }

  /** What block c asks of its predecessor b has been taken up, for its phis if c asks for more or is the only
      successor. */
  ghost predicate TakenUp(f: Func, s: Facts, b: nat, c: nat)
    requires Shaped(f, s) && b < |f.blocks| && c < |f.blocks|
  {
    && s.inn[c] <= s.out[b]
    && (c in s.visited && (s.inn[c] != {} || OnlySucc(f, b, c)) ==> PhiBits(f, c, 0, b) <= s.out[b])
  }

  /** Visited blocks that are off the worklist have taken up what their successors ask for. */
  ghost predicate Exact(f: Func, s: Facts, w: seq<nat>)
    requires Shaped(f, s)
  {
    forall b: nat, c: nat :: b in s.visited && b !in w && c < |f.blocks| && c in f.blocks[b].succs ==>
      TakenUp(f, s, b, c)
  }

  /** What every round keeps. */
  ghost predicate Inv(f: Func, s: Facts, w: seq<nat>) {
    && Shaped(f, s)
    && AllBounded(f, s)
    && Frontier(f, s.visited, w)
    && Untouched(f, s)
    && Computed(f, s)
    && AllJustified(f, s)
    && Noted(f, s)
    && Queued(f, s.visited, w)
    && Exact(f, s, w)
  }

  lemma {:induction false} InRequeued(preds: seq<nat>, changed: bool, visited: set<nat>, p: nat)
    ensures p in Requeued(preds, changed, visited) <==> p in preds && (changed || p !in visited)
  {
    if preds != [] {
      InRequeued(preds[..|preds| - 1], changed, visited, p);
      assert preds == preds[..|preds| - 1] + [preds[|preds| - 1]];
    }
  }

  lemma {:induction false} PhiBitsBounded(f: Func, b: nat, i: nat, p: nat)
    requires WellFormed(f) && b < |f.blocks| && i <= |f.blocks[b].instrs|
    ensures Bounded(f, PhiBits(f, b, i, p))
    decreases |f.blocks[b].instrs| - i
  {
    if i < |f.blocks[b].instrs| {
      PhiBitsBounded(f, b, i + 1, p);
      var instr := f.blocks[b].instrs[i];
      assert InstrOk(f, instr);
      if instr.Phi? {
        forall k | k in instr.incoming && k.val.Val? ensures Bit(f, k.val.v) < DomainSize(f) {
          BitInjective(f, k.val.v, k.val.v);
        }
      }
    }
  }

  lemma {:induction false} PhiBitsRead(f: Func, b: nat, i: nat, p: nat)
    requires WellFormed(f) && b < |f.blocks| && i <= |f.blocks[b].instrs|
    ensures Read(f, p, PhiBits(f, b, i, p))
    decreases |f.blocks[b].instrs| - i
  {
    if i < |f.blocks[b].instrs| {
      PhiBitsRead(f, b, i + 1, p);
      var here := f.blocks[b].instrs[i];
      assert InstrOk(f, here);
      if here.Phi? {
        forall v | Exists(f, v) && Bit(f, v) in IncomingBits(f, here.incoming, p) ensures PhiReads(f, p, v) {
          var k :| k in here.incoming && k.from == p && k.val.Val? && Bit(f, k.val.v) == Bit(f, v);
          BitInjective(f, k.val.v, v);
          assert Incoming(Val(v), p) == k;
        }
      }
    }
  }

  /** Bits are only added: the new set of the block contains the old one. */
  lemma StepGrows(f: Func, s: Facts, w: seq<nat>, t: Facts, w2: seq<nat>)
    requires Inv(f, s, w) && w != [] && w[0] < |f.blocks| && Step(f, s, w, t, w2)
    ensures forall b: nat :: b < |f.blocks| ==> s.inn[b] <= t.inn[b]
    ensures forall b: nat :: b < |f.blocks| ==> MeetOut(f, s, b) <= MeetOut(f, t, b)
  {
    hide Frontier, Exact, AllBounded, AllJustified;
    var cur := w[0];
    if cur in s.visited { BeforeMonotone(f, cur, 0, s.out[cur], MeetOut(f, s, cur)); }
    forall b: nat | b < |f.blocks| ensures MeetOut(f, s, b) <= MeetOut(f, t, b) {
      UnionMonotone(s.inn, t.inn, f.blocks[b].succs);
    }
  }

  lemma StepBounded(f: Func, s: Facts, w: seq<nat>, t: Facts, w2: seq<nat>)
    requires Inv(f, s, w) && w != [] && w[0] < |f.blocks| && Step(f, s, w, t, w2)
    ensures AllBounded(f, t)
  {
    hide Frontier, Exact, Untouched, Computed;
    var cur := w[0];
    forall x | x in MeetOut(f, s, cur) ensures x < DomainSize(f) {
      InUnion(s.inn, f.blocks[cur].succs, x);
    }
    BeforeBounded(f, cur, 0, MeetOut(f, s, cur));
    forall b: nat | b < |f.blocks| ensures Bounded(f, At(t.neighbour, b)) { PhiBitsBounded(f, cur, 0, b); }
  }

  lemma StepFrontier(f: Func, s: Facts, w: seq<nat>, t: Facts, w2: seq<nat>)
    requires Inv(f, s, w) && w != [] && w[0] < |f.blocks| && Step(f, s, w, t, w2)
    ensures Frontier(f, t.visited, w2)
    ensures forall b :: b in w ==> b == w[0] || b in w2
  {
    hide Exact, Untouched, Computed, AllBounded, ReachesExit, Before, PhiBits, MeetOut, AllJustified;
    var cur := w[0];
    var changed := t.inn[cur] != s.inn[cur];
    assert w == [cur] + w[1..];
    forall b: nat | b in w2 ensures b < |f.blocks| && ReachesExit(f, b) {
      InRequeued(f.blocks[cur].preds, changed, t.visited, b);
      assert b in w[1..] ==> b in w;
      if b in f.blocks[cur].preds {
        assert BlockOk(f, f.blocks[cur]) && Linked(f, b, cur);
        ReachesExitBefore(f, b, cur);
      }
    }
    forall b: nat, p: nat | b in t.visited && p in f.blocks[b].preds ensures p in t.visited || p in w2 {
      InRequeued(f.blocks[cur].preds, changed, t.visited, p);
    }
  }

  lemma StepNoted(f: Func, s: Facts, w: seq<nat>, t: Facts, w2: seq<nat>)
    requires Shaped(f, s) && Noted(f, s) && w != [] && w[0] < |f.blocks| && Step(f, s, w, t, w2)
    ensures Noted(f, t)
  {
    hide PhiBits, Before, MeetOut;
    var cur := w[0];
    forall p: nat, x: nat ensures x in At(t.neighbour, p) <==> NotedFor(f, t.visited, p, x) {
      assert x in At(t.neighbour, p) <==> x in At(s.neighbour, p) || x in PhiBits(f, cur, 0, p);
    }
  }

  lemma StepQueued(f: Func, s: Facts, w: seq<nat>, t: Facts, w2: seq<nat>)
    requires Shaped(f, s) && Queued(f, s.visited, w) && w != [] && w[0] < |f.blocks| && Step(f, s, w, t, w2)
    ensures Queued(f, t.visited, w2)
  {
    hide PhiBits, Before, MeetOut;
    var cur := w[0];
    assert w == [cur] + w[1..];
    forall b: nat | (b in w2 || b in t.visited) && b < |f.blocks| && f.blocks[b].succs != []
      ensures exists c: nat :: c in f.blocks[b].succs && c in t.visited
    {
      InRequeued(f.blocks[cur].preds, t.inn[cur] != s.inn[cur], t.visited, b);
      if b in w || b in s.visited {
        var c: nat :| c in f.blocks[b].succs && c in s.visited;
        assert c in t.visited;
      } else {
        assert Linked(f, b, cur) && cur in t.visited;
      }
    }
  }

  /** When a block is looked at, its own set is made to hold all that is asked for. */
  lemma CurrentTakesUp(f: Func, s: Facts, w: seq<nat>, t: Facts, w2: seq<nat>, c: nat)
    requires Inv(f, s, w) && w != [] && w[0] < |f.blocks| && Step(f, s, w, t, w2)
    requires c < |f.blocks| && c in f.blocks[w[0]].succs && t.inn[c] == s.inn[c]
    ensures TakenUp(f, t, w[0], c)
  {
    hide Frontier, Computed, AllBounded, AllJustified, Exact, PhiBits, Before;
    var b := w[0];
    assert b in w;
    forall x | x in s.inn[c] ensures x in t.out[b] { InUnion(s.inn, f.blocks[b].succs, x); }
    if c in t.visited && (t.inn[c] != {} || OnlySucc(f, b, c)) {
      assert c in s.visited;
      forall x | x in PhiBits(f, c, 0, b) ensures x in t.out[b] { assert NotedFor(f, s.visited, b, x); }
    }
  }

  /** What has been taken up before stays so. */
  lemma OthersTookUp(f: Func, s: Facts, w: seq<nat>, t: Facts, w2: seq<nat>, b: nat, c: nat)
    requires Inv(f, s, w) && w != [] && w[0] < |f.blocks| && Step(f, s, w, t, w2)
    requires b in s.visited && b != w[0] && c < |f.blocks| && c in f.blocks[b].succs && t.inn[c] == s.inn[c]
    requires TakenUp(f, s, b, c)
    ensures TakenUp(f, t, b, c)
  {
    hide Frontier, Computed, AllBounded, AllJustified, Exact, PhiBits, Before, MeetOut, Noted;
    assert t.out[b] == s.out[b];
    if c in t.visited && (t.inn[c] != {} || OnlySucc(f, b, c)) {
      assert c in s.visited by {
        if OnlySucc(f, b, c) { var d: nat :| d in f.blocks[b].succs && d in s.visited; }
      }
    }
  }

  lemma StepExact(f: Func, s: Facts, w: seq<nat>, t: Facts, w2: seq<nat>)
    requires Inv(f, s, w) && w != [] && w[0] < |f.blocks| && Step(f, s, w, t, w2)
    ensures Exact(f, t, w2)
  {
    hide Computed, AllBounded, AllJustified, Before, PhiBits, Union, Frontier, MeetOut, Noted, Queued, TakenUp;
    var cur := w[0];
    var changed := t.inn[cur] != s.inn[cur];
    assert w == [cur] + w[1..];
    forall b: nat, c: nat | b in t.visited && b !in w2 && c < |f.blocks| && c in f.blocks[b].succs
      ensures TakenUp(f, t, b, c)
    {
      InRequeued(f.blocks[cur].preds, changed, t.visited, b);
      assert Linked(f, b, cur);
      assert t.inn[c] == s.inn[c];
      if b == cur {
        CurrentTakesUp(f, s, w, t, w2, c);
      } else {
        OthersTookUp(f, s, w, t, w2, b, c);
      }
    }
  }

  lemma StepJustified(f: Func, s: Facts, w: seq<nat>, t: Facts, w2: seq<nat>)
    requires Inv(f, s, w) && w != [] && w[0] < |f.blocks| && Step(f, s, w, t, w2)
    ensures AllJustified(f, t)
  {
    hide Untouched, Computed, AllBounded, Exact, ReachesExit, LiveToExit, PhiBits, Before, PhiReads;
    var cur := w[0];
    forall b: nat ensures Read(f, b, At(t.neighbour, b)) { PhiBitsRead(f, cur, 0, b); }
    forall b: nat, v | b < |f.blocks| && Exists(f, v) && Bit(f, v) in t.inn[b] ensures LiveToExit(f, Point(b, 0), v) {
      if b == cur {
        var asked := Union(s.inn, f.blocks[cur].succs) + At(s.neighbour, cur);
        BeforeMonotone(f, cur, 0, MeetOut(f, s, cur), asked);
        BeforeJustified(f, s.inn, At(s.neighbour, cur), cur, 0, v);
      }
    }
  }

  lemma StepComputed(f: Func, s: Facts, w: seq<nat>, t: Facts, w2: seq<nat>)
    requires Inv(f, s, w) && w != [] && w[0] < |f.blocks| && Step(f, s, w, t, w2)
    ensures Untouched(f, t) && Computed(f, t)
  {
    hide Exact, Frontier, AllBounded, Before, PhiBits, Union, AllJustified, MeetOut;
    StepGrows(f, s, w, t, w2);
    StepUntouched(f, s, w, t, w2);
    hide Untouched;
    forall b: nat | b in t.visited ensures t.out[b] <= MeetOut(f, t, b) {
      if b != w[0] { assert t.out[b] == s.out[b]; }
    }
  }

  lemma StepUntouched(f: Func, s: Facts, w: seq<nat>, t: Facts, w2: seq<nat>)
    requires Shaped(f, s) && Untouched(f, s) && w != [] && w[0] < |f.blocks| && Step(f, s, w, t, w2)
    ensures Untouched(f, t)
  {
    hide Before, PhiBits, MeetOut;
  }

  lemma StepKeepsInv(f: Func, s: Facts, w: seq<nat>, t: Facts, w2: seq<nat>)
    requires Inv(f, s, w) && w != [] && w[0] < |f.blocks| && Step(f, s, w, t, w2)
    ensures Inv(f, t, w2)
  {
    hide Exact, Frontier, AllBounded, Untouched, Computed, AllJustified, Noted, Queued;
    StepNoted(f, s, w, t, w2);
    StepQueued(f, s, w, t, w2);
    StepComputed(f, s, w, t, w2);
    StepBounded(f, s, w, t, w2);
    StepFrontier(f, s, w, t, w2);
    StepJustified(f, s, w, t, w2);
    StepExact(f, s, w, t, w2);
  }

  // ----- Termination -----

  /** How many bits of the first n blocks are not set. */
  ghost function BitsLeft(f: Func, inn: BlockSets, n: nat): int
    requires n <= |f.blocks| == |inn|
  {
    if n == 0 then 0 else BitsLeft(f, inn, n - 1) + DomainSize(f) - |inn[n - 1]|
  }

  ghost function Blocks(n: nat): set<nat> {
    if n == 0 then {} else Blocks(n - 1) + {n - 1}
  }

  lemma {:induction false} InBlocks(n: nat, b: nat)
    ensures b in Blocks(n) <==> b < n
  {
    if n > 0 { InBlocks(n - 1, b); }
  }

  ghost function Unvisited(f: Func, visited: set<nat>): set<nat> {
    Blocks(|f.blocks|) - visited
  }

  /** How many entries of the worklist are of blocks visited before. */
  ghost function Repeats(w: seq<nat>, visited: set<nat>): nat {
    if w == [] then 0 else (if w[0] in visited then 1 else 0) + Repeats(w[1..], visited)
  }

  lemma {:induction false} SizeBound(x: Bits, n: nat)
    requires forall k :: k in x ==> k < n
    ensures |x| <= n
  {
    if n > 0 {
      SizeBound(x - {n - 1}, n - 1);
    } else if k :| k in x {
      assert false;
    }
  }

  lemma SubsetSize(x: Bits, y: Bits)
    requires x <= y
    ensures |x| <= |y| && (x != y ==> |x| < |y|)
  {
    assert y == x + (y - x);
  }

  lemma {:induction false} BitsLeftShrinks(f: Func, inn: BlockSets, next: BlockSets, n: nat)
    requires n <= |f.blocks| == |inn| == |next|
    requires forall b: nat :: b < |f.blocks| ==> inn[b] <= next[b] && Bounded(f, next[b])
    ensures 0 <= BitsLeft(f, next, n) <= BitsLeft(f, inn, n)
    ensures (exists b: nat :: b < n && inn[b] != next[b]) ==> BitsLeft(f, next, n) < BitsLeft(f, inn, n)
  {
    if n > 0 {
      BitsLeftShrinks(f, inn, next, n - 1);
      SubsetSize(inn[n - 1], next[n - 1]);
      SizeBound(next[n - 1], DomainSize(f));
    }
  }

  lemma {:induction false} RepeatsConcat(w: seq<nat>, u: seq<nat>, visited: set<nat>)
    ensures Repeats(w + u, visited) == Repeats(w, visited) + Repeats(u, visited)
  {
    if w == [] {
      assert w + u == u;
    } else {
      assert (w + u)[1..] == w[1..] + u;
      RepeatsConcat(w[1..], u, visited);
    }
  }

  lemma {:induction false} NoRepeats(w: seq<nat>, visited: set<nat>)
    requires forall b :: b in w ==> b !in visited
    ensures Repeats(w, visited) == 0
  {
    if w != [] { NoRepeats(w[1..], visited); }
  }

  /** Each round sets a bit, or visits a block for the first time, or uses up a repeated entry. */
  lemma StepDecreases(f: Func, s: Facts, w: seq<nat>, t: Facts, w2: seq<nat>)
    requires Inv(f, s, w) && w != [] && w[0] < |f.blocks| && Step(f, s, w, t, w2)
    ensures 0 <= BitsLeft(f, t.inn, |f.blocks|) <= BitsLeft(f, s.inn, |f.blocks|)
    ensures Unvisited(f, t.visited) <= Unvisited(f, s.visited)
    ensures BitsLeft(f, t.inn, |f.blocks|) == BitsLeft(f, s.inn, |f.blocks|) &&
            Unvisited(f, t.visited) == Unvisited(f, s.visited)
        ==> Repeats(w2, t.visited) < Repeats(w, s.visited)
  {
    hide Frontier, Exact, Untouched, Computed, Before, PhiBits, MeetOut, AllJustified;
    var cur := w[0];
    StepGrows(f, s, w, t, w2);
    StepBounded(f, s, w, t, w2);
    BitsLeftShrinks(f, s.inn, t.inn, |f.blocks|);
    InBlocks(|f.blocks|, cur);
    if cur in s.visited {
      assert t.visited == s.visited;
      if t.inn[cur] == s.inn[cur] {
        var more := Requeued(f.blocks[cur].preds, false, t.visited);
        forall p | p in more ensures p !in t.visited { InRequeued(f.blocks[cur].preds, false, t.visited, p); }
        NoRepeats(more, t.visited);
        RepeatsConcat(w[1..], more, t.visited);
      }
    } else {
      assert cur in Unvisited(f, s.visited) && cur !in Unvisited(f, t.visited);
    }
  }

  // ----- What the result means -----

  lemma {:induction false} ExitPathVisited(f: Func, visited: set<nat>, path: seq<nat>)
    requires WellFormed(f) && (forall b: nat :: b in visited ==> b < |f.blocks|) && Frontier(f, visited, [])
    requires ExitPath(f, path)
    ensures path[0] in visited
    decreases |path|
  {
    hide ReachesExit;
    if |path| > 1 {
      ExitPathVisited(f, visited, path[1..]);
      assert Linked(f, path[0], path[1]);
    }
  }

  /** The blocks the analysis has been to, when the worklist is empty. */
  lemma VisitedIffReachesExit(f: Func, s: Facts, b: nat)
    requires Inv(f, s, []) && b < |f.blocks|
    ensures b in s.visited <==> ReachesExit(f, b)
  {
    hide Exact, Untouched, Computed, AllBounded, AllJustified;
    if ReachesExit(f, b) {
      var path :| ExitPath(f, path) && path[0] == b;
      ExitPathVisited(f, s.visited, path);
    }
  }

  lemma {:induction false} LivePathReachesExit(f: Func, path: seq<Point>, v: Value)
    requires LivePath(f, path, v) && ReachesExit(f, path[|path| - 1].block)
    ensures forall k :: 0 <= k < |path| ==> ReachesExit(f, path[k].block)
    decreases |path|
  {
    hide ReachesExit;
    if |path| > 1 {
      LivePathReachesExit(f, path[1..], v);
      if path[1].block != path[0].block { ReachesExitBefore(f, path[0].block, path[1].block); }
    }
  }

  /** The bits that phis of the first n blocks read at the end of block b. */
  function PhiAsked(f: Func, n: nat, b: nat): Bits
    requires n <= |f.blocks|
  {
    if n == 0 then {} else PhiAsked(f, n - 1, b) + PhiBits(f, n - 1, 0, b)
  }

  /** All that is asked for at the end of block b. */
  function AskedAtEnd(f: Func, inn: BlockSets, b: nat): Bits
    requires b < |f.blocks| && InRange(f.blocks[b].succs, |inn|)
  {
    Union(inn, f.blocks[b].succs) + PhiAsked(f, |f.blocks|, b)
  }

  lemma {:induction false} InPhiAsked(f: Func, n: nat, b: nat, x: nat)
    requires n <= |f.blocks|
    ensures x in PhiAsked(f, n, b) <==> exists c: nat :: c < n && Asks(f, c, b, x)
  {
    if n > 0 {
      InPhiAsked(f, n - 1, b, x);
      assert x in PhiBits(f, n - 1, 0, b) <==> Asks(f, n - 1, b, x);
    }
  }

  /** A phi at instruction j of block c reads the bit x at the end of block b. */
  ghost predicate ReadsBit(f: Func, c: nat, j: nat, b: nat, x: nat)
    requires c < |f.blocks|
  {
    && j < |f.blocks[c].instrs| && f.blocks[c].instrs[j].Phi?
    && x in IncomingBits(f, f.blocks[c].instrs[j].incoming, b)
  }

  lemma {:induction false} InPhiBits(f: Func, c: nat, i: nat, b: nat, x: nat)
    requires c < |f.blocks| && i <= |f.blocks[c].instrs|
    ensures x in PhiBits(f, c, i, b) <==> exists j: nat :: i <= j && ReadsBit(f, c, j, b, x)
    decreases |f.blocks[c].instrs| - i
  {
    if i < |f.blocks[c].instrs| {
      InPhiBits(f, c, i + 1, b, x);
      assert x in PhiBits(f, c, i, b) <==> x in PhiBits(f, c, i + 1, b) || ReadsBit(f, c, i, b, x);
    }
  }

  /** What a phi reads from a block is asked for at the end of that block. */
  lemma PhiReadIsAsked(f: Func, c: nat, j: nat, b: nat, v: Value)
    requires c < |f.blocks| && j < |f.blocks[c].instrs| && f.blocks[c].instrs[j].Phi?
    requires Incoming(Val(v), b) in f.blocks[c].instrs[j].incoming
    ensures Bit(f, v) in PhiBits(f, c, 0, b) && Bit(f, v) in PhiAsked(f, |f.blocks|, b)
  {
    assert ReadsBit(f, c, j, b, Bit(f, v));
    InPhiBits(f, c, 0, b, Bit(f, v));
    assert Asks(f, c, b, Bit(f, v));
    InPhiAsked(f, |f.blocks|, b, Bit(f, v));
  }

  /** Split edges: who reads from a block is its only successor. */
  lemma AskedByOnlySucc(f: Func, c: nat, b: nat, x: nat)
    requires EdgesSplit(f) && c < |f.blocks| && x in PhiBits(f, c, 0, b)
    ensures OnlySucc(f, b, c)
  {
    InPhiBits(f, c, 0, b, x);
    var j: nat :| ReadsBit(f, c, j, b, x);
    var k :| k in f.blocks[c].instrs[j].incoming && k.from == b && k.val.Val? && Bit(f, k.val.v) == x;
  }

  /** For every function: the value that a phi reads from a block which only leads to the block of the phi is in the
      set at the end of that block, and before its last instruction if that is not what defines it. */
  lemma PhiReadIsLive(f: Func, s: Facts, c: nat, j: nat, b: nat, v: Value)
    requires Inv(f, s, []) && b in s.visited && OnlySucc(f, b, c) && c < |f.blocks| && Exists(f, v)
    requires j < |f.blocks[c].instrs| && f.blocks[c].instrs[j].Phi?
    requires Incoming(Val(v), b) in f.blocks[c].instrs[j].incoming
    ensures Bit(f, v) in s.out[b]
    ensures var last := |f.blocks[b].instrs| - 1;
      0 <= last && (!DefinesValue(f, Point(b, last), v) ==> Bit(f, v) in s.instrIn[b][last])
  {
    hide Frontier, Untouched, AllBounded, AllJustified, Noted, PhiBits, OnlySucc;
    assert BlockOk(f, f.blocks[b]);
    OnlySuccVisited(f, s, b, c);
    PhiReadIsAsked(f, c, j, b, v);
    var last := |f.blocks[b].instrs| - 1;
    BitsOfValues(f, Point(b, last), v);
    assert Before(f, b, last + 1, s.out[b]) == s.out[b];
  }

  lemma OnlySuccVisited(f: Func, s: Facts, b: nat, c: nat)
    requires Shaped(f, s) && Queued(f, s.visited, []) && b in s.visited && OnlySucc(f, b, c) && c < |f.blocks|
    ensures c in s.visited && c in f.blocks[b].succs
  {
    var d: nat :| d in f.blocks[b].succs && d in s.visited;
  }

  /** The value that a phi reads is also found if the block of the phi asks for anything else. */
  lemma PhiReadIsKept(f: Func, s: Facts, c: nat, j: nat, b: nat, v: Value)
    requires Inv(f, s, []) && b in s.visited && c in s.visited && c in f.blocks[b].succs && s.inn[c] != {}
    requires j < |f.blocks[c].instrs| && f.blocks[c].instrs[j].Phi?
    requires Incoming(Val(v), b) in f.blocks[c].instrs[j].incoming
    ensures Bit(f, v) in s.out[b]
  {
    hide Frontier, Untouched, AllBounded, AllJustified, Noted, Queued, Computed, PhiBits;
    PhiReadIsAsked(f, c, j, b, v);
  }

  /** For every function: what the in-sets of successors hold is held at the end of a visited block. */
  lemma SuccsTakenUp(f: Func, s: Facts, b: nat)
    requires Inv(f, s, []) && b in s.visited
    ensures Union(s.inn, f.blocks[b].succs) <= s.out[b] && s.inn[b] == Before(f, b, 0, s.out[b])
    ensures s.out[b] <= AskedAtEnd(f, s.inn, b)
  {
    hide Frontier, Untouched, AllBounded, AllJustified, Queued, PhiBits, Before;
    assert BlockOk(f, f.blocks[b]);
    forall x | x in Union(s.inn, f.blocks[b].succs) ensures x in s.out[b] {
      InUnion(s.inn, f.blocks[b].succs, x);
      var c :| c in f.blocks[b].succs && x in s.inn[c];
      assert TakenUp(f, s, b, c);
    }
    forall x | x in At(s.neighbour, b) ensures x in PhiAsked(f, |f.blocks|, b) {
      var c: nat :| c in s.visited && Asks(f, c, b, x);
      InPhiAsked(f, |f.blocks|, b, x);
    }
  }

  /** With split edges the sets satisfy their equations. */
  lemma ExactOut(f: Func, s: Facts, b: nat)
    requires Inv(f, s, []) && EdgesSplit(f) && b in s.visited
    ensures s.out[b] == AskedAtEnd(f, s.inn, b) && s.inn[b] == Before(f, b, 0, s.out[b])
    ensures forall i: nat :: i < |f.blocks[b].instrs| ==> s.instrIn[b][i] == Before(f, b, i, s.out[b])
  {
    SuccsTakenUp(f, s, b);
    hide Frontier, Untouched, AllBounded, AllJustified, Noted, PhiBits, Before, EdgesSplit, OnlySucc;
    assert BlockOk(f, f.blocks[b]);
    forall x | x in PhiAsked(f, |f.blocks|, b) ensures x in s.out[b] {
      InPhiAsked(f, |f.blocks|, b, x);
      var c: nat :| c < |f.blocks| && Asks(f, c, b, x);
      AskedByOnlySucc(f, c, b, x);
      OnlySuccVisited(f, s, b, c);
      assert TakenUp(f, s, b, c);
    }
  }

  /** Phis or not, and after any number of rounds: a bit that is set before an instruction stands for a value that
      is live there. */
  lemma InstrSetsSound(f: Func, s: Facts, w: seq<nat>, p: Point, v: Value)
    requires Inv(f, s, w) && IsPoint(f, p) && Exists(f, v) && Bit(f, v) in s.instrIn[p.block][p.pos]
    ensures LiveToExit(f, p, v)
  {
    hide Exact, AllBounded, ReachesExit, LiveToExit, Before, PhiReads;
    var b := p.block;
    var asked := Union(s.inn, f.blocks[b].succs) + At(s.neighbour, b);
    BeforeMonotone(f, b, p.pos, s.out[b], asked);
    BeforeJustified(f, s.inn, At(s.neighbour, b), b, p.pos, v);
  }

  /** When the worklist is empty, a value's bit is set before an instruction exactly if some path from there,
      through blocks from which the function can be left, leads to a use of it with no definition on the way. */
  lemma InstrSetsExact(f: Func, s: Facts, p: Point, v: Value)
    requires Inv(f, s, []) && EdgesSplit(f) && IsPoint(f, p) && Exists(f, v)
    ensures Bit(f, v) in s.instrIn[p.block][p.pos] <==> LiveToExit(f, p, v)
  {
    assert Shaped(f, s);
    hide Inv, ReachesExit, LivePath, EdgesSplit, OnlySucc;
    if Bit(f, v) in s.instrIn[p.block][p.pos] { InstrSetsSound(f, s, [], p, v); }
    if LiveToExit(f, p, v) {
      var path: seq<Point> :| LivePath(f, path, v) && path[0] == p && ReachesExit(f, path[|path| - 1].block);
      if !EndsInUse(f, path, v) { PhiReadAtEnd(f, s, path, v); }
      UseIsFound(f, s, path, v);
    }
  }

  /** What a phi reads at the end of a visited block is held before the last instruction of that block. */
  ghost predicate ReadsKept(f: Func, s: Facts)
    requires Shaped(f, s)
  {
    forall p, v :: IsPoint(f, p) && p.block in s.visited && Exists(f, v) && ReadAfter(f, p, v) ==>
      Bit(f, v) in s.instrIn[p.block][p.pos]
  }

  ghost predicate ExactBefore(f: Func, s: Facts, p: Point, v: Value)
    requires Shaped(f, s) && IsPoint(f, p)
  {
    Bit(f, v) in s.instrIn[p.block][p.pos] <==> LiveToExit(f, p, v)
  }

  /** For every function, split edges or not: all stored sets are exact if and only if those are before the last
      instructions of visited blocks for what phis read there; nothing else is ever lost. */
  lemma ExactIffReadsKept(f: Func, s: Facts)
    requires Inv(f, s, []) && Shaped(f, s)
    ensures ReadsKept(f, s) <==> forall p, v :: IsPoint(f, p) && Exists(f, v) ==> ExactBefore(f, s, p, v)
  {
    hide Inv, ExactBefore, ReadsKept, Shaped;
    if ReadsKept(f, s) {
      forall p, v | IsPoint(f, p) && Exists(f, v) ensures ExactBefore(f, s, p, v) { ExactIfKept(f, s, p, v); }
    }
    if forall p, v :: IsPoint(f, p) && Exists(f, v) ==> ExactBefore(f, s, p, v) { KeptIfExact(f, s); }
  }

  lemma KeptIfExact(f: Func, s: Facts)
    requires Inv(f, s, []) && Shaped(f, s)
    requires forall p, v :: IsPoint(f, p) && Exists(f, v) ==> ExactBefore(f, s, p, v)
    ensures ReadsKept(f, s)
  {
    hide Inv, ReadAfter, ReachesExit;
    forall p, v | IsPoint(f, p) && p.block in s.visited && Exists(f, v) && ReadAfter(f, p, v)
      ensures Bit(f, v) in s.instrIn[p.block][p.pos]
    {
      VisitedIffReachesExit(f, s, p.block);
      assert LivePath(f, [p], v) && [p][0] == p;
      assert ExactBefore(f, s, p, v);
    }
  }

  lemma ExactIfKept(f: Func, s: Facts, p: Point, v: Value)
    requires Inv(f, s, []) && Shaped(f, s) && ReadsKept(f, s) && IsPoint(f, p) && Exists(f, v)
    ensures ExactBefore(f, s, p, v)
  {
    hide Inv, ReachesExit, ReadsKept;
    if Bit(f, v) in s.instrIn[p.block][p.pos] { InstrSetsSound(f, s, [], p, v); }
    if LiveToExit(f, p, v) {
      var path: seq<Point> :| LivePath(f, path, v) && path[0] == p && ReachesExit(f, path[|path| - 1].block);
      LivePathEnd(f, path, v);
      if !EndsInUse(f, path, v) { KeptAtEnd(f, s, path[|path| - 1], v); }
      UseIsFound(f, s, path, v);
    }
  }

  lemma KeptAtEnd(f: Func, s: Facts, p: Point, v: Value)
    requires Inv(f, s, []) && Shaped(f, s) && ReadsKept(f, s) && IsPoint(f, p) && Exists(f, v)
    requires ReadAfter(f, p, v) && !UsesValue(f, p, v) && ReachesExit(f, p.block)
    ensures Bit(f, v) in s.out[p.block]
  {
    VisitedIffReachesExit(f, s, p.block);
    assert Computed(f, s) && WellFormed(f);
    assert p.pos + 1 == |f.blocks[p.block].instrs|;
    hide Inv, ReachesExit, ReadAfter, UsesValue, WellFormed, Before;
    HeldAfterLast(f, p, v, s.out[p.block]);
  }

  lemma HeldAfterLast(f: Func, p: Point, v: Value, out: Bits)
    requires WellFormed(f) && IsPoint(f, p) && Exists(f, v) && !UsesValue(f, p, v)
    requires p.pos + 1 == |f.blocks[p.block].instrs| && Bit(f, v) in Before(f, p.block, p.pos, out)
    ensures Bit(f, v) in out
  {
    BitsOfValues(f, p, v);
    assert Before(f, p.block, p.pos + 1, out) == out;
  }

  lemma PhiReadAtEnd(f: Func, s: Facts, path: seq<Point>, v: Value)
    requires Inv(f, s, []) && EdgesSplit(f) && Exists(f, v)
    requires LivePath(f, path, v) && !EndsInUse(f, path, v) && ReachesExit(f, path[|path| - 1].block)
    ensures Bit(f, v) in s.out[path[|path| - 1].block]
  {
    var b := path[|path| - 1].block;
    LivePathEnd(f, path, v);
    hide LivePath, UsesValue, ReachesExit, Inv;
    var c: nat, i: nat :| c < |f.blocks| && i < |f.blocks[c].instrs| && f.blocks[c].instrs[i].Phi?
      && Incoming(Val(v), b) in f.blocks[c].instrs[i].incoming;
    assert OnlySucc(f, b, c);
    VisitedIffReachesExit(f, s, b);
    PhiReadIsLive(f, s, c, i, b, v);
  }

  /** For every function: a use that is not that of a phi is found at the beginning of every live path to it, and that
      of a phi if it has been taken up. */
  lemma UseIsFound(f: Func, s: Facts, path: seq<Point>, v: Value)
    requires Inv(f, s, []) && Exists(f, v)
    requires LivePath(f, path, v) && ReachesExit(f, path[|path| - 1].block)
    requires var b := path[|path| - 1].block;
      b < |s.out| && (EndsInUse(f, path, v) || Bit(f, v) in s.out[b])
    ensures var p := path[0];
      p.block < |s.instrIn| && p.pos < |s.instrIn[p.block]| && Bit(f, v) in s.instrIn[p.block][p.pos]
  {
    LivePathReachesExit(f, path, v);
    assert Shaped(f, s) && IsPoint(f, path[0]);
    forall k | 0 <= k < |path| ensures path[k].block in s.visited { VisitedIffReachesExit(f, s, path[k].block); }
    assert path[0].block in s.visited && Computed(f, s);
    forall b: nat | b in s.visited
      ensures Union(s.inn, f.blocks[b].succs) <= s.out[b] && Before(f, b, 0, s.out[b]) <= s.inn[b]
    {
      SuccsTakenUp(f, s, b);
    }
    hide Inv, Exact, Untouched, AllBounded, Frontier, AllJustified, Noted, Queued, ReachesExit, LivePath;
    LivePathInClosed(f, s.inn, s.out, s.visited, path, v);
  }

  /** The data-flow equations of the analysis. */
  ghost predicate Solution(f: Func, inn: BlockSets, out: BlockSets)
    requires WellFormed(f)
  {
    && |inn| == |out| == |f.blocks|
    && forall b: nat :: b < |f.blocks| ==> SolvedAt(f, inn, out, b)
  }

  /** A block from which the function cannot be left asks for nothing of its own. */
  ghost predicate EndlessBlocksAskNothing(f: Func) {
    forall b: nat :: b < |f.blocks| && !ReachesExit(f, b) ==> AsksNothing(f, b)
  }

  ghost predicate AsksNothing(f: Func, b: nat)
    requires b < |f.blocks|
  {
    PhiAsked(f, |f.blocks|, b) == {} && Before(f, b, 0, {}) == {}
  }

  lemma LiveInSolution(f: Func, inn: BlockSets, out: BlockSets, b: nat, v: Value)
    requires WellFormed(f) && Solution(f, inn, out) && b < |f.blocks| && Exists(f, v)
    requires LiveToExit(f, Point(b, 0), v)
    ensures Bit(f, v) in inn[b]
  {
    hide ReachesExit, Before, InstrOk, PhiReads, UsesValue, PhiAsked;
    var path: seq<Point> :| LivePath(f, path, v) && path[0] == Point(b, 0);
    LivePathEnd(f, path, v);
    hide LivePath;
    var all := Blocks(|f.blocks|);
    forall c: nat ensures c in all <==> c < |f.blocks| { InBlocks(|f.blocks|, c); }
    LivePathInRange(f, path, v);
    if !EndsInUse(f, path, v) { ReadIsAsked(f, path[|path| - 1].block, v); }
    assert BlockOk(f, f.blocks[b]);
    SolutionClosed(f, inn, out);
    assert SolvedAt(f, inn, out, path[|path| - 1].block) && SolvedAt(f, inn, out, b);
    hide Solution, Closed, ReadAfter;
    LivePathInClosed(f, inn, out, all, path, v);
  }

  lemma SolutionClosed(f: Func, inn: BlockSets, out: BlockSets)
    requires WellFormed(f) && Solution(f, inn, out)
    ensures Closed(f, inn, out, Blocks(|f.blocks|))
  {
    hide Before, PhiAsked, Union, InstrOk;
    forall b: nat | b in Blocks(|f.blocks|)
      ensures b < |f.blocks| && InRange(f.blocks[b].succs, |inn|)
      ensures Union(inn, f.blocks[b].succs) <= out[b] && Before(f, b, 0, out[b]) <= inn[b]
    {
      InBlocks(|f.blocks|, b);
      assert BlockOk(f, f.blocks[b]) && SolvedAt(f, inn, out, b);
    }
  }

  lemma ReadIsAsked(f: Func, b: nat, v: Value)
    requires PhiReads(f, b, v)
    ensures Bit(f, v) in PhiAsked(f, |f.blocks|, b)
  {
    var c: nat, i: nat :| c < |f.blocks| && i < |f.blocks[c].instrs| && f.blocks[c].instrs[i].Phi?
      && Incoming(Val(v), b) in f.blocks[c].instrs[i].incoming;
    PhiReadIsAsked(f, c, i, b, v);
  }

  lemma {:induction false} LivePathInRange(f: Func, path: seq<Point>, v: Value)
    requires LivePath(f, path, v)
    ensures forall k :: 0 <= k < |path| ==> path[k].block < |f.blocks|
    decreases |path|
  {
    if |path| > 1 { LivePathInRange(f, path[1..], v); }
  }

  lemma BelowEverySolution(f: Func, s: Facts, inn: BlockSets, out: BlockSets, b: nat)
    requires Inv(f, s, []) && Solution(f, inn, out) && b < |f.blocks|
    ensures s.inn[b] <= inn[b]
  {
    assert |inn| == |f.blocks|;
    hide Computed, Untouched, Frontier, LiveToExit, Solution;
    forall k | k in s.inn[b] ensures k in inn[b] {
      var v := BitOnto(f, |f.blocks|, k);
      LiveInSolution(f, inn, out, b, v);
    }
  }

  lemma UnvisitedSuccs(f: Func, s: Facts, b: nat)
    requires Inv(f, s, []) && b < |f.blocks| && b !in s.visited
    ensures Union(s.inn, f.blocks[b].succs) == {} == s.inn[b] == s.out[b] && !ReachesExit(f, b)
  {
    hide Exact, Computed;
    VisitedIffReachesExit(f, s, b);
    if x :| x in Union(s.inn, f.blocks[b].succs) {
      InUnion(s.inn, f.blocks[b].succs, x);
      var c :| c in f.blocks[b].succs && x in s.inn[c];
      VisitedIffReachesExit(f, s, c);
      if ReachesExit(f, c) { ReachesExitBefore(f, b, c); }
    }
  }

  ghost predicate Below(f: Func, s: Facts, inn: BlockSets, out: BlockSets)
    requires |s.inn| == |s.out| == |inn| == |out|
  {
    forall b: nat :: b < |s.inn| ==> s.inn[b] <= inn[b] && s.out[b] <= out[b]
  }

  lemma AtSolution(f: Func, inn: BlockSets, out: BlockSets, b: nat)
    requires WellFormed(f) && Solution(f, inn, out) && b < |f.blocks|
    ensures |inn| == |out| == |f.blocks| && BlockOk(f, f.blocks[b])
    ensures out[b] == AskedAtEnd(f, inn, b) && inn[b] == Before(f, b, 0, out[b])
  {
    assert SolvedAt(f, inn, out, b);
  }

  lemma BelowSolution(f: Func, s: Facts, inn: BlockSets, out: BlockSets)
    requires Inv(f, s, []) && Solution(f, inn, out)
    ensures Below(f, s, inn, out)
  {
    assert Shaped(f, s);
    hide Inv, Before, ReachesExit, EndlessBlocksAskNothing;
    hide SolvedAt, Solution, PhiAsked, Union;
    forall b: nat | b < |f.blocks| ensures s.inn[b] <= inn[b] && s.out[b] <= out[b] {
      AtSolution(f, inn, out, b);
      BelowEverySolution(f, s, inn, out, b);
      forall c: nat | c in f.blocks[b].succs ensures s.inn[c] <= inn[c] { BelowEverySolution(f, s, inn, out, c); }
      UnionMonotone(s.inn, inn, f.blocks[b].succs);
      if b in s.visited { SuccsTakenUp(f, s, b); } else { UnvisitedSuccs(f, s, b); }
    }
  }

  /** The sets at the end are below every solution of the equations, and with split edges are themselves the
      least solution exactly if no block that never leaves the function asks for anything. */
  lemma LeastSolution(f: Func, s: Facts)
    requires Inv(f, s, [])
    ensures forall inn, out :: Solution(f, inn, out) ==> Below(f, s, inn, out)
    ensures EdgesSplit(f) ==> (Solution(f, s.inn, s.out) <==> EndlessBlocksAskNothing(f))
  {
    if EdgesSplit(f) { SolutionIff(f, s); }
    forall inn, out | Solution(f, inn, out) ensures Below(f, s, inn, out) { BelowSolution(f, s, inn, out); }
  }

  lemma SolutionIff(f: Func, s: Facts)
    requires Inv(f, s, []) && EdgesSplit(f)
    ensures Solution(f, s.inn, s.out) <==> EndlessBlocksAskNothing(f)
  {
    assert Shaped(f, s);
    hide Inv, ReachesExit, Before, InstrOk, PhiAsked, EdgesSplit, Union;
    forall b: nat | b < |f.blocks|
      ensures BlockOk(f, f.blocks[b])
      ensures SolvedAt(f, s.inn, s.out, b) <==> (ReachesExit(f, b) || AsksNothing(f, b))
    {
      SolvedIff(f, s, b);
    }
  }

  ghost predicate SolvedAt(f: Func, inn: BlockSets, out: BlockSets, b: nat)
    requires WellFormed(f) && |inn| == |out| == |f.blocks| && b < |f.blocks|
  {
    assert BlockOk(f, f.blocks[b]);
    out[b] == AskedAtEnd(f, inn, b) && inn[b] == Before(f, b, 0, out[b])
  }

  lemma SolvedIff(f: Func, s: Facts, b: nat)
    requires Inv(f, s, []) && EdgesSplit(f) && b < |f.blocks|
    ensures WellFormed(f) && |s.inn| == |s.out| == |f.blocks| && BlockOk(f, f.blocks[b])
    ensures SolvedAt(f, s.inn, s.out, b) <==> (ReachesExit(f, b) || AsksNothing(f, b))
  {
    assert Shaped(f, s) && BlockOk(f, f.blocks[b]);
    hide Inv, ReachesExit, Before, InstrOk, PhiAsked, EdgesSplit;
    VisitedIffReachesExit(f, s, b);
    if b in s.visited { ExactOut(f, s, b); } else { UnvisitedSuccs(f, s, b); }
  }

  /** No instruction of a block from which the function cannot be left uses a value, and no phi reads one there. */
  ghost predicate NothingUsedInEndlessCode(f: Func) {
    forall p, v :: IsPoint(f, p) && !ReachesExit(f, p.block) && Exists(f, v) ==>
      !UsesValue(f, p, v) && !ReadAfter(f, p, v)
  }

  /** The sets are the live values, without reservation, exactly if endless code uses nothing. */
  lemma LivenessExactIff(f: Func, s: Facts)
    requires Inv(f, s, []) && EdgesSplit(f)
    ensures (forall p, v :: IsPoint(f, p) && Exists(f, v) ==>
      (Bit(f, v) in s.instrIn[p.block][p.pos] <==> Live(f, p, v)))
        <==> NothingUsedInEndlessCode(f)
  {
    assert Shaped(f, s);
    hide Inv, ReachesExit, LivePath, WellFormed, EdgesSplit;
    if NothingUsedInEndlessCode(f) {
      forall p, v | IsPoint(f, p) && Exists(f, v) ensures Bit(f, v) in s.instrIn[p.block][p.pos] <==> Live(f, p, v) {
        InstrSetsExact(f, s, p, v);
        if Live(f, p, v) { LiveLeaves(f, p, v); }
        assert LiveToExit(f, p, v) ==> Live(f, p, v);
      }
    } else {
      var p, v :| IsPoint(f, p) && !ReachesExit(f, p.block) && Exists(f, v)
        && (UsesValue(f, p, v) || ReadAfter(f, p, v));
      UsedIsLive(f, p, v);
    }
  }

  lemma UsedIsLive(f: Func, p: Point, v: Value)
    requires IsPoint(f, p) && (UsesValue(f, p, v) || ReadAfter(f, p, v))
    ensures Live(f, p, v)
  {
    assert LivePath(f, [p], v);
  }

  lemma LiveLeaves(f: Func, p: Point, v: Value)
    requires NothingUsedInEndlessCode(f) && Live(f, p, v) && Exists(f, v)
    ensures LiveToExit(f, p, v)
  {
    var path: seq<Point> :| LivePath(f, path, v) && path[0] == p;
    hide LivePath, ReachesExit;
    LivePathEnd(f, path, v);
  }

}

/** The parts of value-range-analysis that record ranges, with the tables they update: what is recorded for a block
    holds of every state that comes to it along an edge. */
module RangeVisitor {
  import opened Intervals
  import opened BranchRanges
  import opened RangeArithmetic

  /** What is recorded for a block. */
  datatype Info = Info(ranges: Ranges, reachable: bool)

  /** Map insert: what is there already stays. */
  function Insert(info: Info, name: string, r: Range): Info {
    if name in info.ranges then info else info.(ranges := info.ranges[name := r])
  }

  function RecordEdge(info: Info, name: string, edge: Edge): Info {
    match edge
    case Record(r) => Insert(info, name, r)
    case Unreachable => info.(reachable := false)
    case Nothing => info
  }

  /** A value that exists in a state of the program, and the name it goes by in the tables. */
  datatype Named = Named(name: string, value: Int32)

  /** A state: the values that exist, by identity. */
  type Values = map<nat, Named>

  /** What is recorded is true of a state: every value is in the range recorded for its name. */
  ghost predicate Models(info: Info, values: Values) {
    && info.reachable
    && forall id :: id in values && values[id].name in info.ranges ==>
      Contains(info.ranges[values[id].name], values[id].value)
  }

  /** A conditional branch on the comparison of two operands. */
  datatype Branch = Branch(pred: Predicate, lhs: Operand, rhs: Operand, yes: nat, no: nat)

  predicate Exists(a: Operand, values: Values) {
    a.Variable? ==> a.id in values && values[a.id].name == a.name
  }

  function ValueOf(a: Operand, values: Values): Int32
    requires Exists(a, values)
  {
    match a
    case Constant(c) => c
    case Variable(id, _) => values[id].value
  }

  /** The edges of a branch: what is recorded for the operand with the given name. */
  function Conclusions(br: Branch, ranges: Ranges): seq<(string, (Edge, Edge))>
    requires RangesOk(ranges)
  {
    var rel := Reading(br.pred);
    match (br.lhs, br.rhs)
    case (Constant(_), Constant(_)) => []
    case (Variable(_, name), Constant(c)) =>
      [(name, ConstantEdges(rel, name in ranges, TryGetRange(name, ranges), c))]
    case (Constant(c), Variable(_, name)) =>
      [(name, ConstantEdges(Mirrored(rel), name in ranges, TryGetRange(name, ranges), c))]
    case (Variable(i, n), Variable(j, m)) =>
      var r, s := TryGetRange(n, ranges), TryGetRange(m, ranges);
      var up := if i == j then Upward(rel) else rel;
      [(n, VariableEdges(up, r, s)), (m, VariableEdges(Mirrored(up), s, r))]
  }

  function RecordBoth(first: map<nat, Info>, yes: nat, no: nat, name: string, edges: (Edge, Edge)): map<nat, Info>
    requires yes in first && no in first
  {
    var one := first[yes := RecordEdge(first[yes], name, edges.0)];
    one[no := RecordEdge(one[no], name, edges.1)]
  }

  function Taken(edges: (Edge, Edge), taken: bool): Edge {
    if taken then edges.0 else edges.1
  }

  function Target(br: Branch, taken: bool): nat {
    if taken then br.yes else br.no
  }

  /** The table after the edges of a branch have been recorded, one operand after the other. */
  function AfterBranch(first: map<nat, Info>, br: Branch, cs: seq<(string, (Edge, Edge))>): (t: map<nat, Info>)
    requires br.yes in first && br.no in first
    ensures br.yes in t && br.no in t
  {
    if cs == [] then first
    else AfterBranch(RecordBoth(first, br.yes, br.no, cs[0].0, cs[0].1), br, cs[1..])
  }

  /** The operand exists, and its value is in its range, which is an interval, and within the bounds. */
  ghost predicate OperandOk(a: Operand, ranges: Ranges, values: Values)
    requires RangesOk(ranges)
  {
    Exists(a, values) && (a.Variable? ==>
      var r := TryGetRange(a.name, ranges);
      InFirst(r, ValueOf(a, values)) && InBounds(ValueOf(a, values)))
  }

  /** No other value goes by the name of the operand. */
  ghost predicate Alone(a: Operand, values: Values) {
    a.Variable? ==> forall id :: id in values && values[id].name == a.name ==> id == a.id
  }

  /** The edge keeps no value with the name out. */
  ghost predicate Admits(edge: Edge, name: string, values: Values) {
    edge != Unreachable && forall id :: id in values && values[id].name == name ==> !Excluded(edge, values[id].value)
  }

  lemma RecordAdmitted(info: Info, name: string, edge: Edge, values: Values)
    requires Models(info, values) && Admits(edge, name, values)
    ensures Models(RecordEdge(info, name, edge), values)
  {}

  lemma {:induction false} AfterBranchModels(first: map<nat, Info>, br: Branch, cs: seq<(string, (Edge, Edge))>,
          taken: bool, values: Values)
    requires br.yes in first && br.no in first && br.yes != br.no && Models(first[Target(br, taken)], values)
    requires forall i :: 0 <= i < |cs| ==> Admits(Taken(cs[i].1, taken), cs[i].0, values)
    ensures Models(AfterBranch(first, br, cs)[Target(br, taken)], values)
  {
    hide Models, Admits;
    if cs != [] {
      RecordAdmitted(first[Target(br, taken)], cs[0].0, Taken(cs[0].1, taken), values);
      AfterBranchModels(RecordBoth(first, br.yes, br.no, cs[0].0, cs[0].1), br, cs[1..], taken, values);
    }
  }

  lemma AloneAdmitted(a: Operand, ranges: Ranges, edge: Edge, values: Values)
    requires a.Variable? && RangesOk(ranges) && OperandOk(a, ranges, values) && Alone(a, values)
    requires !Excluded(edge, ValueOf(a, values))
    ensures Admits(edge, a.name, values)
  {}

  lemma ConclusionsSound(br: Branch, ranges: Ranges, values: Values)
    requires RangesOk(ranges) && OperandOk(br.lhs, ranges, values) && OperandOk(br.rhs, ranges, values)
    requires Alone(br.lhs, values) && Alone(br.rhs, values)
    ensures var taken := Stands(Reading(br.pred), ValueOf(br.lhs, values), ValueOf(br.rhs, values));
      forall i :: 0 <= i < |Conclusions(br, ranges)| ==>
        Admits(Taken(Conclusions(br, ranges)[i].1, taken), Conclusions(br, ranges)[i].0, values)
  {
    var rel, x, y := Reading(br.pred), ValueOf(br.lhs, values), ValueOf(br.rhs, values);
    var taken, cs := Stands(rel, x, y), Conclusions(br, ranges);
    hide ConstantEdges, VariableEdges, Excluded, Contains, Reading, Alone, Admits;
    match (br.lhs, br.rhs)
    case (Constant(_), Constant(_)) =>
    case (Variable(_, name), Constant(c)) =>
      ConstantEdgesSound(rel, name in ranges, TryGetRange(name, ranges), c, x);
      AloneAdmitted(br.lhs, ranges, Taken(cs[0].1, taken), values);
    case (Constant(c), Variable(_, name)) =>
      ConstantEdgesSound(Mirrored(rel), name in ranges, TryGetRange(name, ranges), c, y);
      AloneAdmitted(br.rhs, ranges, Taken(cs[0].1, taken), values);
    case (Variable(i, n), Variable(j, m)) =>
      var up := if i == j then Upward(rel) else rel;
      assert Stands(up, x, y) <==> Stands(rel, x, y);
      VariableEdgesSound(up, TryGetRange(n, ranges), TryGetRange(m, ranges), x, y);
      AloneAdmitted(br.lhs, ranges, Taken(cs[0].1, taken), values);
      AloneAdmitted(br.rhs, ranges, Taken(cs[1].1, taken), values);
  }

  predicate IsUnsigned(pred: Predicate) {
    pred.UGT? || pred.UGE? || pred.ULT? || pred.ULE?
  }

  /** Following an edge keeps the table true: if what was recorded for the target held of a state that takes the
      edge, so does what is recorded there now. No other value may share a name with an operand, and unsigned
      comparisons need operands of the same sign. */
  lemma BranchSound(first: map<nat, Info>, ranges: Ranges, br: Branch, values: Values)
    requires br.yes in first && br.no in first && br.yes != br.no
    requires RangesOk(ranges) && OperandOk(br.lhs, ranges, values) && OperandOk(br.rhs, ranges, values)
    requires Alone(br.lhs, values) && Alone(br.rhs, values)
    requires IsUnsigned(br.pred) ==> (ValueOf(br.lhs, values) < 0 <==> ValueOf(br.rhs, values) < 0)
    ensures var block := Target(br, Holds(br.pred, ValueOf(br.lhs, values), ValueOf(br.rhs, values)));
      Models(first[block], values) ==> Models(AfterBranch(first, br, Conclusions(br, ranges))[block], values)
  {
    var x, y := ValueOf(br.lhs, values), ValueOf(br.rhs, values);
    var taken := Holds(br.pred, x, y);
    assert taken <==> Stands(Reading(br.pred), x, y);
    hide Conclusions, Models, Alone, Admits, OperandOk, Holds, Stands;
    ConclusionsSound(br, ranges, values);
    if Models(first[Target(br, taken)], values) {
      AfterBranchModels(first, br, Conclusions(br, ranges), taken, values);
    }
  }

  lemma AfterOne(first: map<nat, Info>, br: Branch, cs: seq<(string, (Edge, Edge))>)
    requires br.yes in first && br.no in first && |cs| == 1
    ensures AfterBranch(first, br, cs) == RecordBoth(first, br.yes, br.no, cs[0].0, cs[0].1)
  {
    assert cs[1..] == [];
  }

  lemma AfterTwo(first: map<nat, Info>, br: Branch, cs: seq<(string, (Edge, Edge))>)
    requires br.yes in first && br.no in first && |cs| == 2
    ensures var t := RecordBoth(first, br.yes, br.no, cs[0].0, cs[0].1);
      AfterBranch(first, br, cs) == RecordBoth(t, br.yes, br.no, cs[1].0, cs[1].1)
  {
    AfterOne(RecordBoth(first, br.yes, br.no, cs[0].0, cs[0].1), br, cs[1..]);
  }

  /** With both edges into one block what the true edge records is not overwritten, and a mark is never taken back: of a
      variable not recorded before, compared with a constant, the table is true of just the states that take the true
      edge, and of none unless the range has a value that takes the false one. */
  lemma SameTarget(first: map<nat, Info>, ranges: Ranges, br: Branch, values: Values)
    requires br.yes in first && br.yes == br.no && RangesOk(ranges) && Models(first[br.yes], values)
    requires !IsUnsigned(br.pred) && br.pred != EQ && br.pred != NE
    requires br.lhs.Variable? && br.rhs.Constant? && INT_MIN < br.rhs.value < INT_MAX
    requires br.lhs.name !in first[br.yes].ranges && OperandOk(br.lhs, ranges, values) && Alone(br.lhs, values)
    ensures var range, c := TryGetRange(br.lhs.name, ranges), br.rhs.value;
      Models(AfterBranch(first, br, Conclusions(br, ranges))[br.yes], values)
      <==> Holds(br.pred, ValueOf(br.lhs, values), c) && SomeStand(Negated(Reading(br.pred)), range, c)
  {
    var name, v, c := br.lhs.name, ValueOf(br.lhs, values), br.rhs.value;
    var rel, range := Reading(br.pred), TryGetRange(name, ranges);
    var edges := ConstantEdges(rel, name in ranges, range, c);
    ConstantEdgesTight(rel, name in ranges, range, c, v);
    FalseEdgeReachable(rel, name in ranges, range, c);
    AfterOne(first, br, Conclusions(br, ranges));
    assert AfterBranch(first, br, Conclusions(br, ranges)) == RecordBoth(first, br.yes, br.no, name, edges);
    assert edges.0 != Nothing && edges.1 != Nothing;
    hide AfterBranch, Conclusions, Contains, ConstantEdges, RangesOk, OperandOk, TryGetRange, Holds, Stands, SomeStand,
      Negated;
  }

  /** Of an equality the true edge records the constant, if anything is; the true edge of an inequality records what is
      left without it, and the false edge marks the block if the constant is not in the range. */
  lemma SameTargetOfEquality(first: map<nat, Info>, ranges: Ranges, br: Branch, values: Values)
    requires br.yes in first && br.yes == br.no && RangesOk(ranges) && Models(first[br.yes], values)
    requires br.lhs.Variable? && br.rhs.Constant? && (br.pred == EQ || br.pred == NE)
    requires br.lhs.name !in first[br.yes].ranges && OperandOk(br.lhs, ranges, values) && Alone(br.lhs, values)
    ensures var range, v, c := TryGetRange(br.lhs.name, ranges), ValueOf(br.lhs, values), br.rhs.value;
      Models(AfterBranch(first, br, Conclusions(br, ranges))[br.yes], values)
      <==> if br.pred == EQ then br.lhs.name !in ranges || v == c
           else range[0] <= c <= range[1] && (v != c || range[0] == range[1] || !CanBeCut(range, [c, c]))
  {
    var name, v, c := br.lhs.name, ValueOf(br.lhs, values), br.rhs.value;
    var rel, range := Reading(br.pred), TryGetRange(name, ranges);
    var edges := ConstantEdges(rel, name in ranges, range, c);
    EqualityEdgesTight(rel, range, c, v);
    AfterOne(first, br, Conclusions(br, ranges));
    assert AfterBranch(first, br, Conclusions(br, ranges)) == RecordBoth(first, br.yes, br.no, name, edges);
    assert edges.1 == Unreachable <==> (rel == Different && !(range[0] <= c <= range[1]));
    hide AfterBranch, Conclusions, Contains, ConstantEdges, RangesOk, TryGetRange, Cut, CanBeCut;
  }

  /** So for x < 5, where x is known to be between 0 and 10: a state in which x is 7 comes to the block as well, but the
      table says that x is at most 4. */
  lemma SameTargetLosesStates()
    ensures var br, empty := Branch(SLT, Variable(0, "x"), Constant(5), 0, 0), Info(map[], true);
      var values: Values := map[0 := Named("x", 7)];
      var after := AfterBranch(map[0 := empty], br, Conclusions(br, map["x" := [0, 10]]));
      Models(empty, values) && !Models(after[0], values)
  {
    var br, empty := Branch(SLT, Variable(0, "x"), Constant(5), 0, 0), Info(map[], true);
    var values: Values := map[0 := Named("x", 7)];
    SameTarget(map[0 := empty], map["x" := [0, 10]], br, values);
  }

  /** A comparison with a constant, of a value that may be in the second interval of its range: what is recorded for the
      target is true of the state exactly if the value is in the first one, or nothing or the whole range is recorded
      there. */
  lemma BranchOnTwoIntervals(first: map<nat, Info>, ranges: Ranges, br: Branch, values: Values)
    requires br.yes in first && br.no in first && br.yes != br.no && RangesOk(ranges) && !IsUnsigned(br.pred)
    requires br.lhs.Variable? && br.rhs.Constant? && Exists(br.lhs, values) && Alone(br.lhs, values)
    requires Contains(TryGetRange(br.lhs.name, ranges), ValueOf(br.lhs, values)) && InBounds(ValueOf(br.lhs, values))
    requires var block := Target(br, Holds(br.pred, ValueOf(br.lhs, values), br.rhs.value));
      br.lhs.name !in first[block].ranges && Models(first[block], values)
    ensures var block := Target(br, Holds(br.pred, ValueOf(br.lhs, values), br.rhs.value));
      var range, rel := TryGetRange(br.lhs.name, ranges), Reading(br.pred);
      Models(AfterBranch(first, br, Conclusions(br, ranges))[block], values)
      <==> || InFirst(range, ValueOf(br.lhs, values))
           || WholeKept(rel, br.lhs.name in ranges, range, br.rhs.value, ValueOf(br.lhs, values))
  {
    var name, v, c := br.lhs.name, ValueOf(br.lhs, values), br.rhs.value;
    var rel, range := Reading(br.pred), TryGetRange(name, ranges);
    var edges, taken := ConstantEdges(rel, name in ranges, range, c), Holds(br.pred, v, c);
    assert taken <==> Stands(rel, v, c);
    ConstantEdgesSound(rel, name in ranges, range, c, v);
    AfterOne(first, br, Conclusions(br, ranges));
    hide AfterBranch, ConstantEdges, Contains, Excluded, WholeKept, InFirst, Stands, Holds, Models;
    EdgeModels(first[Target(br, taken)], br.lhs, Taken(edges, taken), values);
  }

  lemma EdgeModels(info: Info, a: Operand, edge: Edge, values: Values)
    requires a.Variable? && Exists(a, values) && Alone(a, values) && Models(info, values) && a.name !in info.ranges
    ensures Models(RecordEdge(info, a.name, edge), values) <==> !Excluded(edge, ValueOf(a, values))
  {
    assert values[a.id].name == a.name;
  }

  /** The edges of each relation, written out. */
  lemma EdgesOf(rel: Relation, r: Range, s: Range)
    requires |r| >= 2 && |s| >= 2
    ensures VariableEdges(rel, r, s) ==
      match rel
      case Greater => (Noted([Successor(s[0]), INF], r), Noted([MINUS_INF, s[1]], r))
      case AtLeast => (Noted([s[0], INF], r), Noted([MINUS_INF, Predecessor(s[1])], r))
      case Less => (Noted([MINUS_INF, Predecessor(s[1])], r), Noted([s[0], INF], r))
      case AtMost => (Noted([MINUS_INF, s[1]], r), Noted([Successor(s[0]), INF], r))
      case _ => (Nothing, Nothing)
  {}

  lemma NothingRecorded(first: map<nat, Info>, yes: nat, no: nat, name: string)
    requires yes in first && no in first
    ensures RecordBoth(first, yes, no, name, (Nothing, Nothing)) == first
  {}

  class Visitor {
    /** What holds when a block is entered, and when it is left. */
    var first: map<nat, Info>
    var second: map<nat, Info>

    /** The range of the result is recorded under its name, unless there is one. */
    method HandleBinaryOp(block: nat, result: string, op: Opcode, a: Operand, b: Operand)
      requires block in second && RangesOk(second[block].ranges)
      modifies this`second
      ensures var ranges := old(second)[block].ranges;
        second == old(second)[block := Insert(old(second)[block], result, BinaryRange(op, a, b, ranges))]
    {
      var ranges := second[block].ranges;
      var resultRange: Range;
      if a.Constant? && b.Constant? {
        var dest := Wrap(Compute(op, a.value, b.value));
        resultRange := [dest, dest];
      } else if b.Constant? {
        resultRange := WithConstant(op, TryGetRange(a.name, ranges), b.value);
      } else if a.Constant? {
        resultRange := WithConstant(op, TryGetRange(b.name, ranges), a.value);
      } else {
        var r, s := TryGetRange(a.name, ranges), TryGetRange(b.name, ranges);
        match op
        case Add => resultRange := [Wrap(Compute(Add, r[0], s[0])), Wrap(Compute(Add, r[1], s[1]))];
        case Sub =>
          if a.id == b.id {
            resultRange := [Wrap(Compute(Sub, r[0], s[0])), Wrap(Compute(Sub, r[1], s[1]))];
          } else {
            resultRange := [Wrap(Compute(Sub, r[0], s[1])), Wrap(Compute(Sub, r[1], s[0]))];
          }
        case Mul => resultRange := ProductRange(a.name == b.name, r, s);
      }
      second := second[block := Insert(second[block], result, resultRange)];
    }

    /** The range of an operation on an operand and a constant: if both bounds wrap around equally often it contains the
        results of all values of the operand, and both its bounds are results. */
    static method WithConstant(op: Opcode, operand: Range, c: Int32) returns (r: Range)
      requires |operand| >= 2
      ensures r == ConstantRange(op, operand, c)
      ensures operand[0] <= operand[1] && Period(Compute(op, operand[0], c)) == Period(Compute(op, operand[1], c)) ==>
        && (forall x: Int32 :: operand[0] <= x <= operand[1] ==> Contains(r, Wrap(Compute(op, x, c))))
        && (r[0] == Wrap(Compute(op, operand[0], c)) || r[0] == Wrap(Compute(op, operand[1], c)))
        && (r[1] == Wrap(Compute(op, operand[0], c)) || r[1] == Wrap(Compute(op, operand[1], c)))
    {
      var low, high := Wrap(Compute(op, operand[0], c)), Wrap(Compute(op, operand[1], c));
      r := if op == Mul then [Min(low, high), Max(low, high)] else [low, high];
      assert r == ConstantRange(op, operand, c);
      hide ConstantRange, Compute, Wrap, Period;
      if operand[0] <= operand[1] && Period(Compute(op, operand[0], c)) == Period(Compute(op, operand[1], c)) {
        forall x: Int32 | operand[0] <= x <= operand[1] ensures Contains(r, Wrap(Compute(op, x, c))) {
          ConstantRangeContains(op, operand, c, x);
        }
      }
    }

    method InsertRange(block: nat, name: string, r: Range)
      requires block in first
      modifies this`first
      ensures first == old(first)[block := Insert(old(first)[block], name, r)]
    {
      if name !in first[block].ranges {
        first := first[block := first[block].(ranges := first[block].ranges[name := r])];
      }
    }

    /** Records what a bound leaves of a range; if that is nothing, the edge may be marked. */
    method Refine(block: nat, name: string, bound: Range, range: Range, mark: bool)
      requires block in first && |bound| == 2 && |range| >= 2
      modifies this`first
      ensures first == old(first)[block := RecordEdge(old(first)[block], name,
        if mark then Bounded(bound, range) else Noted(bound, range))]
    {
      var i := Intersect(bound, range);
      if i != [] {
        InsertRange(block, name, i);
      } else if mark {
        first := first[block := first[block].(reachable := false)];
      }
    }

    /** Does so for both edges. */
    method RefineBoth(yes: nat, no: nat, name: string, onTrue: Range, onFalse: Range, range: Range, mark: bool)
      requires yes in first && no in first && |onTrue| == 2 && |onFalse| == 2 && |range| >= 2
      modifies this`first
      ensures var edges := if mark then (Bounded(onTrue, range), Bounded(onFalse, range))
                           else (Noted(onTrue, range), Noted(onFalse, range));
        first == RecordBoth(old(first), yes, no, name, edges)
    {
      Refine(yes, name, onTrue, range, mark);
      Refine(no, name, onFalse, range, mark);
    }

    /** A comparison of a variable with a constant; rel is how it reads with the variable on the left. */
    method CompareConstant(rel: Relation, name: string, c: Int32, ranges: Ranges, yes: nat, no: nat)
      requires RangesOk(ranges) && yes in first && no in first
      modifies this`first
      ensures first == RecordBoth(old(first), yes, no, name,
        ConstantEdges(rel, name in ranges, TryGetRange(name, ranges), c))
    {
      var range := TryGetRange(name, ranges);
      match rel
      case Equal =>
        if name in ranges {
          Refine(yes, name, [c, c], range, true);
          var other := Cut(range, [c, c]);
          InsertRange(no, name, if other != [] then other else range);
        }
      case Different =>
        var other := Cut(range, [c, c]);
        InsertRange(yes, name, if other != [] then other else range);
        Refine(no, name, [c, c], range, true);
      case Greater =>
        RefineBoth(yes, no, name, [Successor(c), INF], [MINUS_INF, c], range, true);
      case Less =>
        RefineBoth(yes, no, name, [MINUS_INF, Predecessor(c)], [c, INF], range, true);
      case AtLeast =>
        RefineBoth(yes, no, name, [c, INF], [MINUS_INF, Predecessor(c)], range, true);
      case AtMost =>
        RefineBoth(yes, no, name, [MINUS_INF, c], [Successor(c), INF], range, true);
    }

    /** A comparison of two variables, first for the one on the left and then for the one on the right; same if they
        are one value. */
    method CompareVariables(rel: Relation, same: bool, left: string, right: string, ranges: Ranges, yes: nat, no: nat)
      requires RangesOk(ranges) && yes in first && no in first
      modifies this`first
      ensures var r, s := TryGetRange(left, ranges), TryGetRange(right, ranges);
        var up := if same then Upward(rel) else rel;
        var one := RecordBoth(old(first), yes, no, left, VariableEdges(up, r, s));
        first == RecordBoth(one, yes, no, right, VariableEdges(Mirrored(up), s, r))
    {
      var r, s := TryGetRange(left, ranges), TryGetRange(right, ranges);
      hide Noted, Bounded, RecordEdge, RangesOk, RecordBoth, TryGetRange, Successor, Predecessor, VariableEdges;
      EdgesOf(if same then Upward(rel) else rel, r, s);
      EdgesOf(Mirrored(if same then Upward(rel) else rel), s, r);
      if rel == Equal || rel == Different {
        NothingRecorded(first, yes, no, left);
        NothingRecorded(first, yes, no, right);
      } else if rel == Greater || (rel == Less && same) {
        RefineBoth(yes, no, left, [Successor(s[0]), INF], [MINUS_INF, s[1]], r, false);
        RefineBoth(yes, no, right, [MINUS_INF, Predecessor(r[1])], [r[0], INF], s, false);
      } else if rel == Less {
        RefineBoth(yes, no, left, [MINUS_INF, Predecessor(s[1])], [s[0], INF], r, false);
        RefineBoth(yes, no, right, [Successor(r[0]), INF], [MINUS_INF, r[1]], s, false);
      } else if rel == AtLeast || (rel == AtMost && same) {
        RefineBoth(yes, no, left, [s[0], INF], [MINUS_INF, Predecessor(s[1])], r, false);
        RefineBoth(yes, no, right, [MINUS_INF, r[1]], [Successor(r[0]), INF], s, false);
      } else {
        RefineBoth(yes, no, left, [MINUS_INF, s[1]], [Successor(s[0]), INF], r, false);
        RefineBoth(yes, no, right, [r[0], INF], [MINUS_INF, Predecessor(r[1])], s, false);
      }
    }

    /** The comparison at the end of a block is recorded for the two blocks it leads to. */
    method HandlePredIcmp(pred: nat, br: Branch)
      requires pred in second && RangesOk(second[pred].ranges) && br.yes in first && br.no in first
      modifies this`first
      ensures first == AfterBranch(old(first), br, Conclusions(br, second[pred].ranges))
    {
      var ranges := second[pred].ranges;
      var rel := Reading(br.pred);
      ghost var cs := Conclusions(br, ranges);
      if br.lhs.Constant? && br.rhs.Constant? { return; }
      if br.rhs.Constant? {
        AfterOne(first, br, cs);
        CompareConstant(rel, br.lhs.name, br.rhs.value, ranges, br.yes, br.no);
      } else if br.lhs.Constant? {
        AfterOne(first, br, cs);
        CompareConstant(Mirrored(rel), br.rhs.name, br.lhs.value, ranges, br.yes, br.no);
      } else {
        AfterTwo(first, br, cs);
        CompareVariables(rel, br.lhs.id == br.rhs.id, br.lhs.name, br.rhs.name, ranges, br.yes, br.no);
      }
    }
  }
}

/**
  The reuse planner of `vllm/env_override.py`: trailing allocation lines that nobody returns
  are dropped, and every remaining one is planned with the state of the subgraph around it.
 */
module MemoryPlanner {

  /** A line of generated code. `plannedBy` names the planning state handed to `plan`: the
      position of the line that opened its subgraph, or -1 for the outermost state. */
  datatype Line = Planning(name: string, plannedBy: int) | EnterSubgraph | ExitSubgraph | Other

  /** Planning states on the stack before line `k`: one to begin with, plus subgraphs opened, less those closed. */
  function Open(lines: seq<Line>, k: nat): int
    requires k <= |lines|
  {
    if k == 0 then 1
    else Open(lines, k - 1) + match lines[k - 1] { case EnterSubgraph => 1 case ExitSubgraph => -1 case _ => 0 }
  }

  /** The state opened at `j` is the innermost one still open before line `k`: since `j` the
      stack has always been deeper than it was at `j`, and by now is one deeper exactly. */
  ghost predicate Innermost(lines: seq<Line>, j: int, k: nat)
    requires -1 <= j < k <= |lines|
  {
    if j == -1 then Open(lines, k) == 1 && forall m :: 0 <= m <= k ==> Open(lines, m) >= 1
    else lines[j].EnterSubgraph? && Open(lines, k) == Open(lines, j) + 1
         && forall m :: j < m <= k ==> Open(lines, m) > Open(lines, j)
  }

  /** What line `k` may become: planned by the innermost state around it, or left alone. */
  ghost predicate Rewritten(lines: seq<Line>, k: nat, line: Line)
    requires k < |lines|
  {
    if lines[k].Planning?
    then line.Planning? && line.name == lines[k].name
         && -1 <= line.plannedBy < k && Innermost(lines, line.plannedBy, k)
    else line == lines[k]
  }

  predicate NeedsState(line: Line) { line.Planning? || line.ExitSubgraph? }

  /** Planning ends normally: no line needs a state when none is left, and one remains for the end. */
  predicate Plannable(lines: seq<Line>) {
    Fed(lines, |lines|) && Open(lines, |lines|) == 1
  }

  /** None of the first `n` lines needs a state where none is open. */
  predicate Fed(lines: seq<Line>, n: nat)
    requires n <= |lines|
  {
    forall k :: 0 <= k < n && NeedsState(lines[k]) ==> Open(lines, k) >= 1
  }

  predicate Pointless(line: Line, outNames: set<string>) {
    line.Planning? && line.name !in outNames
  }

  class Wrapper {
    var lines: seq<Line>

    constructor (initial: seq<Line>)
      ensures lines == initial
    {
      lines := initial;
    }

    /** Drops the longest pointless tail. */
    method DropPointlessTail(outNames: set<string>)
      modifies this
      ensures lines <= old(lines)
      ensures forall k :: |lines| <= k < |old(lines)| ==> Pointless(old(lines)[k], outNames)
      ensures lines != [] ==> !Pointless(lines[|lines| - 1], outNames)
    {
      while lines != [] && Pointless(lines[|lines| - 1], outNames)
        invariant lines <= old(lines)
        invariant forall k :: |lines| <= k < |old(lines)| ==> Pointless(old(lines)[k], outNames)
        decreases |lines|
      {
        lines := lines[..|lines| - 1];
      }
    }

    /** Plans every line; `ok` is false when the source raises. Lines are only rewritten in
        place, and each planned line gets the innermost state open around it. */
    method PlanReuse() returns (ok: bool)
      modifies this
      ensures |lines| == |old(lines)|
      ensures ok <==> Plannable(old(lines))
      ensures ok ==> forall k :: 0 <= k < |lines| ==> Rewritten(old(lines), k, lines[k])
    {
      ghost var was := lines;
      var states := [-1];
      FirstState(was);
      hide StateAt, Innermost;
      for i := 0 to |lines|
        invariant |lines| == |was| && lines[i..] == was[i..]
        invariant |states| == Open(was, i)
        invariant Fed(was, i)
        invariant forall d :: 0 <= d < |states| ==> StateAt(was, states[d], d, i)
        invariant forall k :: 0 <= k < i ==> Rewritten(was, k, lines[k])
      {
        var line := lines[i];
        assert line == lines[i..][0] == was[i];
        if NeedsState(line) && states == [] { return false; }
        match line {
          case Planning(name, _) =>
            TopIsInnermost(was, states[|states| - 1], |states| - 1, i);
            lines := lines[i := Planning(name, states[|states| - 1])];
          case EnterSubgraph => states := states + [i];
          case ExitSubgraph => states := states[..|states| - 1];
          case Other =>
        }
        assert Open(was, i + 1) == |states|;
        forall d | 0 <= d < |states| ensures StateAt(was, states[d], d, i + 1) {
          StateStays(was, states[d], d, i);
        }
      }
      ok := |states| == 1;
    }

    /** The whole planner: what is left of the lines is planned, what is gone was pointless. */
    method MemoryPlanReuse(outNames: set<string>) returns (ok: bool)
      modifies this
      ensures |lines| <= |old(lines)|
      ensures forall k :: |lines| <= k < |old(lines)| ==> Pointless(old(lines)[k], outNames)
      ensures lines != [] ==> !Pointless(old(lines)[|lines| - 1], outNames)
      ensures ok <==> Plannable(old(lines)[..|lines|])
      ensures ok ==> forall k :: 0 <= k < |lines| ==> Rewritten(old(lines)[..|lines|], k, lines[k])
    {
      DropPointlessTail(outNames);
      assert lines == old(lines)[..|lines|];
      ok := PlanReuse();
    }
  }

  /** Entry `d` of the stack was pushed when the stack was `d` deep, and has not been exposed since. */
  ghost predicate StateAt(lines: seq<Line>, j: int, d: nat, i: nat)
    requires i <= |lines|
  {
    && -1 <= j < i
    && (if j == -1 then d == 0 && forall m :: 0 <= m <= i ==> Open(lines, m) >= 1
        else lines[j].EnterSubgraph? && Open(lines, j) == d && forall m :: j < m <= i ==> Open(lines, m) > d)
  }

  lemma {:induction false} FirstState(lines: seq<Line>)
    ensures StateAt(lines, -1, 0, 0)
  {
  }

  /** A state stays where it is while the stack above it comes and goes; a new one is on top. */
  lemma {:induction false} StateStays(lines: seq<Line>, j: int, d: nat, i: nat)
    requires i < |lines| && d < Open(lines, i + 1)
    requires StateAt(lines, j, d, i) || (j == i && lines[i].EnterSubgraph? && d == Open(lines, i))
    ensures StateAt(lines, j, d, i + 1)
  {
  }

  lemma {:induction false} TopIsInnermost(lines: seq<Line>, j: int, d: nat, i: nat)
    requires i < |lines| && d + 1 == Open(lines, i) && StateAt(lines, j, d, i)
    ensures -1 <= j < i && Innermost(lines, j, i)
  {
  }

  /** Every subgraph that is closed was opened, and all are closed at the end. */
  predicate Balanced(lines: seq<Line>) {
    && (forall k :: 0 <= k <= |lines| ==> Open(lines, k) >= 1)
    && Open(lines, |lines|) == 1
  }

  lemma {:induction false} BalancedIsPlannable(lines: seq<Line>)
    requires Balanced(lines)
    ensures Plannable(lines)
  {
    assert Open(lines, |lines|) >= 1;
  }

  /** The closing assertion does not ensure balance: a subgraph closed before it is opened goes unnoticed. */
  lemma {:induction false} PlannableButNotBalanced()
    ensures Plannable([ExitSubgraph, EnterSubgraph]) && !Balanced([ExitSubgraph, EnterSubgraph])
  {
    var lines := [ExitSubgraph, EnterSubgraph];
    assert Open(lines, 1) == 0;
    assert Open(lines, 2) == 1;
  }

  /** The outermost state is never closed on the way. */
  predicate NeverExhausted(lines: seq<Line>) {
    forall m :: 0 <= m < |lines| ==> Open(lines, m) != 0
  }

  lemma {:induction false} PositiveUpTo(lines: seq<Line>, k: nat)
    requires k <= |lines| && Plannable(lines) && NeverExhausted(lines)
    ensures Open(lines, k) >= 1
  {
    if k == 0 {
    } else {
      PositiveUpTo(lines, k - 1);
      if k < |lines| { assert Open(lines, k) != 0; }
    }
  }

  /** What is missing for balance is exactly that the stack is never exhausted on the way. */
  lemma {:induction false} BalancedExactly(lines: seq<Line>)
    ensures Balanced(lines) <==> Plannable(lines) && NeverExhausted(lines)
  {
    if Balanced(lines) {
      BalancedIsPlannable(lines);
      forall m | 0 <= m < |lines| ensures Open(lines, m) != 0 { assert Open(lines, m) >= 1; }
    }
    if Plannable(lines) && NeverExhausted(lines) {
      forall k | 0 <= k <= |lines| ensures Open(lines, k) >= 1 { PositiveUpTo(lines, k); }
    }
  }
}

/**
 * The encoder's choice of a parse ends in `Backward` (EMdF/lzma_emdros.cpp):
 * each node of `opt` knows how the best path reaches it from the left, and the
 * links are turned round in place so that GetOptimum can hand the steps out from
 * left to right. A node may stand for up to three steps at once: an optional
 * match, a literal, and its own match or repetition.
 */
module Backward {

  const CHAR_BACK := 0xFFFF_FFFF

  datatype Node = Node(posPrev: nat, backPrev: nat, prev1IsChar: bool, prev2: bool, posPrev2: nat, backPrev2: nat)

  /** One step of the parse: the positions it covers and its `back` code. */
  datatype Step = Step(from: nat, to: nat, back: nat)

  /** Where the path of a node comes from, before the steps the node stands for. */
  function Origin(n: Node): int {
    if !n.prev1IsChar then n.posPrev else if !n.prev2 then n.posPrev - 1 else n.posPrev2
  }

  /** A node whose pointers lead strictly to the left. */
  predicate NodeOk(n: Node, cur: nat) {
    n.posPrev < cur &&
    (n.prev1IsChar ==> n.posPrev >= 1) &&
    (n.prev1IsChar && n.prev2 ==> n.posPrev2 < n.posPrev - 1)
  }

  /** Every node on the way from cur to 0 is such a node. */
  predicate Chain(opt: seq<Node>, cur: nat)
    requires cur < |opt|
  {
    cur == 0 || (NodeOk(opt[cur], cur) && Chain(opt, Origin(opt[cur])))
  }

  /** The steps a node stands for. */
  function NodeSteps(n: Node, cur: nat): seq<Step>
    requires NodeOk(n, cur)
  {
    var own := [Step(n.posPrev, cur, n.backPrev)];
    if !n.prev1IsChar then own
    else
      var literal := [Step(n.posPrev - 1, n.posPrev, CHAR_BACK)];
      if !n.prev2 then literal + own
      else [Step(n.posPrev2, n.posPrev - 1, n.backPrev2)] + literal + own
  }

  /** A node's last step has its own code, a literal before it all ones, and a step before that its second code. */
  lemma NodeStepsMean(n: Node, cur: nat)
    requires NodeOk(n, cur)
    ensures var s := NodeSteps(n, cur);
            && |s| == (if !n.prev1IsChar then 1 else if !n.prev2 then 2 else 3)
            && s[|s| - 1] == Step(n.posPrev, cur, n.backPrev)
            && (|s| >= 2 ==> s[|s| - 2].back == 0xFFFF_FFFF && s[|s| - 2].from + 1 == s[|s| - 2].to)
            && (|s| == 3 ==> s[0].back == n.backPrev2)
  {
  }

  /** The chosen path with compound nodes expanded, from left to right. */
  function Path(opt: seq<Node>, cur: nat): seq<Step>
    requires cur < |opt| && Chain(opt, cur)
  {
    if cur == 0 then [] else Path(opt, Origin(opt[cur])) + NodeSteps(opt[cur], cur)
  }

  /** Steps that follow one another strictly upwards from a to b. */
  ghost predicate Connects(steps: seq<Step>, a: nat, b: nat) {
    (forall i :: 0 <= i < |steps| ==> steps[i].from < steps[i].to) &&
    (forall i :: 0 <= i < |steps| - 1 ==> steps[i].to == steps[i + 1].from) &&
    (if steps == [] then a == b else steps[0].from == a && steps[|steps| - 1].to == b)
  }

  lemma ConnectsAppend(s: seq<Step>, t: seq<Step>, a: nat, b: nat, c: nat)
    requires Connects(s, a, b) && Connects(t, b, c)
    ensures Connects(s + t, a, c)
  {
    var u := s + t;
    forall i | 0 <= i < |u| - 1 ensures u[i].to == u[i + 1].from {
      if i < |s| - 1 { assert u[i] == s[i] && u[i + 1] == s[i + 1]; }
      else if i == |s| - 1 { assert u[i] == s[i] && u[i + 1] == t[0]; }
      else { assert u[i] == t[i - |s|] && u[i + 1] == t[i + 1 - |s|]; }
    }
  }

  /** For every chain: the path leads from 0 to its end without a gap. */
  lemma {:induction false} PathConnects(opt: seq<Node>, cur: nat)
    requires cur < |opt| && Chain(opt, cur)
    ensures Connects(Path(opt, cur), 0, cur)
  {
    if cur != 0 {
      var o := Origin(opt[cur]);
      PathConnects(opt, o);
      assert Connects(NodeSteps(opt[cur], cur), o, cur);
      ConnectsAppend(Path(opt, o), NodeSteps(opt[cur], cur), 0, o, cur);
    }
  }

  /** The path depends only on the nodes up to its end. */
  lemma {:induction false} PathAgrees(opt: seq<Node>, opt': seq<Node>, cur: nat)
    requires cur < |opt| && cur < |opt'| && Chain(opt, cur)
    requires forall i :: 0 <= i <= cur ==> opt'[i] == opt[i]
    ensures Chain(opt', cur) && Path(opt', cur) == Path(opt, cur)
  {
    if cur != 0 { PathAgrees(opt, opt', Origin(opt[cur])); }
  }

  /* ---------- one turn of the loop ---------- */

  /** The node being left, with the pointers that were taken out of it. */
  function Held(opt: seq<Node>, cur: nat, posMem: nat, backMem: nat): seq<Node>
    requires cur < |opt|
  {
    opt[cur := opt[cur].(posPrev := posMem, backPrev := backMem)]
  }

  /** The nodes that a compound node's literal and match are written into. */
  function Expanded(opt: seq<Node>, cur: nat, posMem: nat): seq<Node>
    requires cur < |opt| && posMem < cur
    requires opt[cur].prev1IsChar ==> posMem >= 1
  {
    if !opt[cur].prev1IsChar then opt
    else
      var opt1 := opt[posMem := opt[posMem].(backPrev := CHAR_BACK, prev1IsChar := false, posPrev := posMem - 1)];
      if !opt[cur].prev2 then opt1
      else opt1[posMem - 1 := opt1[posMem - 1].(prev1IsChar := false, posPrev := opt[cur].posPrev2,
                                                backPrev := opt[cur].backPrev2)]
  }

  lemma PathUnfolds(opt: seq<Node>, cur: nat)
    requires 0 < cur < |opt| && Chain(opt, cur)
    ensures NodeOk(opt[cur], cur) && Chain(opt, Origin(opt[cur]))
    ensures Path(opt, cur) == Path(opt, Origin(opt[cur])) + NodeSteps(opt[cur], cur)
  {
  }

  /** After the expansion, the step into cur is a single one and the path before it is unchanged. */
  lemma ExpandedPath(opt: seq<Node>, cur: nat, posMem: nat, backMem: nat)
    requires 0 < cur < |opt| && Chain(Held(opt, cur, posMem, backMem), cur)
    ensures posMem < cur && (opt[cur].prev1IsChar ==> posMem >= 1)
    ensures opt[cur].prev1IsChar && opt[cur].prev2 ==> posMem >= 2
    ensures var opt1 := Expanded(opt, cur, posMem);
            && |opt1| == |opt| && Chain(opt1, posMem)
            && Path(Held(opt, cur, posMem, backMem), cur) == Path(opt1, posMem) + [Step(posMem, cur, backMem)]
            && forall i :: cur <= i < |opt| ==> opt1[i] == opt[i]
  {
    hide Path, Chain;
    var held := Held(opt, cur, posMem, backMem);
    var n := held[cur];
    PathUnfolds(held, cur);
    var opt1 := Expanded(opt, cur, posMem);
    PathAgrees(held, opt1, Origin(n));
    if n.prev1IsChar {
      if n.prev2 { CharAndMatch(opt1, n, posMem); } else { JustChar(opt1, posMem); }
    }
  }

  lemma JustChar(opt: seq<Node>, p: nat)
    requires 1 <= p < |opt| && Chain(opt, p - 1)
    requires !opt[p].prev1IsChar && opt[p].posPrev == p - 1 && opt[p].backPrev == CHAR_BACK
    ensures Chain(opt, p) && Path(opt, p) == Path(opt, p - 1) + [Step(p - 1, p, CHAR_BACK)]
  {
  }

  lemma CharAndMatch(opt: seq<Node>, n: Node, p: nat)
    requires 2 <= p < |opt| && n.posPrev2 < p - 1 && Chain(opt, n.posPrev2)
    requires !opt[p].prev1IsChar && opt[p].posPrev == p - 1 && opt[p].backPrev == CHAR_BACK
    requires !opt[p - 1].prev1IsChar && opt[p - 1].posPrev == n.posPrev2 && opt[p - 1].backPrev == n.backPrev2
    ensures Chain(opt, p)
    ensures Path(opt, p) ==
            Path(opt, n.posPrev2) + [Step(n.posPrev2, p - 1, n.backPrev2)] + [Step(p - 1, p, CHAR_BACK)]
  {
    assert Chain(opt, p - 1);
    assert Path(opt, p - 1) == Path(opt, n.posPrev2) + [Step(n.posPrev2, p - 1, n.backPrev2)];
    JustChar(opt, p);
  }

  /** The steps already turned round: each is found at the node it starts from. */
  ghost predicate Turned(opt: seq<Node>, steps: seq<Step>) {
    forall i :: 0 <= i < |steps| ==>
      steps[i].from < |opt| && opt[steps[i].from].posPrev == steps[i].to && opt[steps[i].from].backPrev == steps[i].back
  }

  lemma {:induction false} FromsAscend(steps: seq<Step>, a: nat, b: nat, i: nat)
    requires Connects(steps, a, b) && i < |steps|
    ensures a <= steps[i].from < b
  {
    if i > 0 { FromsAscend(steps, a, b, i - 1); }
    TosAscend(steps, a, b, i);
    assert i > 0 ==> steps[i - 1].to == steps[i].from;
  }

  lemma {:induction false} TosAscend(steps: seq<Step>, a: nat, b: nat, i: nat)
    requires Connects(steps, a, b) && i < |steps|
    ensures steps[i].to <= b
    decreases |steps| - i
  {
    if i + 1 < |steps| {
      TosAscend(steps, a, b, i + 1);
      assert steps[i].to == steps[i + 1].from;
    }
  }

  /** Turning the step into cur round leaves the later ones alone. */
  lemma TurnOne(opt: seq<Node>, opt': seq<Node>, s: Step, steps: seq<Step>, end: nat)
    requires Connects(steps, s.to, end) && Turned(opt, steps) && s.from < s.to && s.from < |opt| == |opt'|
    requires forall i :: s.to <= i < |opt| ==> opt'[i] == opt[i]
    requires opt'[s.from].posPrev == s.to && opt'[s.from].backPrev == s.back
    ensures Turned(opt', [s] + steps) && Connects([s] + steps, s.from, end)
  {
    forall i | 0 <= i < |steps| ensures s.to <= steps[i].from { FromsAscend(steps, s.to, end, i); }
    assert Connects([s], s.from, s.to);
    ConnectsAppend([s], steps, s.from, s.to, end);
  }

  class Optimum {
    const opt: array<Node>
    var optimumEndIndex: nat
    var optimumCurrentIndex: nat

    constructor (opt: array<Node>)
      ensures this.opt == opt && optimumEndIndex == 0 && optimumCurrentIndex == 0
    {
      this.opt := opt;
      optimumEndIndex, optimumCurrentIndex := 0, 0;
    }

    /**
     * Backward: afterwards every step of the chosen path, compounds expanded, is
     * found at the node it starts from, and the first step is returned.
     */
    method Backward(end: nat) returns (len: nat, back: nat)
      requires 0 < end < opt.Length && Chain(opt[..], end)
      modifies this, opt
      ensures Turned(opt[..], old(Path(opt[..], end)))
      ensures old(Path(opt[..], end)) != []
      ensures old(Path(opt[..], end))[0] == Step(0, len, back)
      ensures optimumEndIndex == end && optimumCurrentIndex == len
    {
      hide Chain, Path, Turned, Connects;
      ghost var path := Path(opt[..], end);
      ghost var done: seq<Step> := [];
      var cur, posMem, backMem := end, opt[end].posPrev, opt[end].backPrev;
      optimumEndIndex := end;
      assert Held(opt[..], cur, posMem, backMem) == opt[..];
      NothingTurned(opt[..], end);
      while cur != 0
        invariant 0 <= cur < opt.Length
        invariant Chain(Held(opt[..], cur, posMem, backMem), cur)
        invariant path == Path(Held(opt[..], cur, posMem, backMem), cur) + done
        invariant Connects(done, cur, end) && Turned(opt[..], done)
        invariant optimumEndIndex == end
        decreases cur
      {
        ghost var before := opt[..];
        ExpandedPath(before, cur, posMem, backMem);
        if opt[cur].prev1IsChar {
          opt[posMem] := opt[posMem].(backPrev := CHAR_BACK, prev1IsChar := false);
          opt[posMem] := opt[posMem].(posPrev := posMem - 1);
          if opt[cur].prev2 { PutMatch(cur, posMem); }
        }
        ghost var expanded := opt[..];
        assert expanded == Expanded(before, cur, posMem);
        var posPrev, backCur := posMem, backMem;
        backMem := opt[posPrev].backPrev;
        posMem := opt[posPrev].posPrev;
        opt[posPrev] := opt[posPrev].(backPrev := backCur, posPrev := cur);
        assert Held(opt[..], posPrev, posMem, backMem) == expanded;
        TurnOne(before, opt[..], Step(posPrev, cur, backCur), done, end);
        AppendOne(Path(expanded, posPrev), Step(posPrev, cur, backCur), done);
        done := [Step(posPrev, cur, backCur)] + done;
        cur := posPrev;
      }
      AllTurned(opt[..], Held(opt[..], 0, posMem, backMem), path, done, end);
      back := opt[0].backPrev;
      optimumCurrentIndex := opt[0].posPrev;
      len := optimumCurrentIndex;
    }

    /**
     * The opening of GetOptimum: while the path is not used up, hand out its next
     * step as a length and a `back` code.
     */
    method NextStep() returns (len: int, back: nat)
      requires optimumCurrentIndex < opt.Length
      modifies this`optimumCurrentIndex
      ensures len == opt[old(optimumCurrentIndex)].posPrev - old(optimumCurrentIndex)
      ensures back == opt[old(optimumCurrentIndex)].backPrev
      ensures optimumCurrentIndex == opt[old(optimumCurrentIndex)].posPrev
    {
      var node := opt[optimumCurrentIndex];
      len := node.posPrev - optimumCurrentIndex;
      back := node.backPrev;
      optimumCurrentIndex := node.posPrev;
    }

    /** All that a call of Backward and the following calls of GetOptimum return, up to the end of the path. */
    method TakePath(end: nat) returns (lens: seq<int>, backs: seq<nat>)
      requires 0 < end < opt.Length && Chain(opt[..], end)
      modifies this, opt
      ensures var path := old(Path(opt[..], end));
              && |lens| == |backs| == |path|
              && (forall i :: 0 <= i < |path| ==> lens[i] == path[i].to - path[i].from > 0 && backs[i] == path[i].back)
      ensures Sum(lens) == end && optimumCurrentIndex == end
    {
      hide Chain, Path;
      ghost var path := Path(opt[..], end);
      PathConnects(opt[..], end);
      var len, back := Backward(end);
      lens, backs := [len], [back];
      ghost var nodes := opt[..];
      assert lens[0] == path[0].to - path[0].from;
      while optimumEndIndex != optimumCurrentIndex
        invariant opt[..] == nodes && 1 <= |lens| == |backs| <= |path|
        invariant optimumEndIndex == end && optimumCurrentIndex == path[|lens| - 1].to
        invariant forall i :: 0 <= i < |lens| ==> lens[i] == path[i].to - path[i].from && backs[i] == path[i].back
        invariant Sum(lens) == optimumCurrentIndex
        decreases |path| - |lens|
      {
        NotAtEnd(path, |lens| - 1, end);
        assert path[|lens|].from == optimumCurrentIndex && nodes[optimumCurrentIndex] == opt[optimumCurrentIndex];
        len, back := NextStep();
        SumSnoc(lens, len);
        lens, backs := lens + [len], backs + [back];
      }
      AtEnd(path, |lens| - 1, end);
    }

    /** The three assignments for a match before the literal. */
    method PutMatch(cur: nat, posMem: nat)
      requires cur < opt.Length && 2 <= posMem < cur
      modifies opt
      ensures opt[..] == old(opt[..])[posMem - 1 := old(opt[posMem - 1]).(prev1IsChar := false,
                                        posPrev := old(opt[cur].posPrev2), backPrev := old(opt[cur].backPrev2))]
    {
      opt[posMem - 1] := opt[posMem - 1].(prev1IsChar := false);
      opt[posMem - 1] := opt[posMem - 1].(posPrev := opt[cur].posPrev2);
      opt[posMem - 1] := opt[posMem - 1].(backPrev := opt[cur].backPrev2);
    }
  }

  function Sum(lens: seq<int>): int { if lens == [] then 0 else Sum(lens[..|lens| - 1]) + lens[|lens| - 1] }

  lemma SumSnoc(lens: seq<int>, x: int)
    ensures Sum(lens + [x]) == Sum(lens) + x
  {
    assert (lens + [x])[..|lens|] == lens;
  }

  lemma NotAtEnd(path: seq<Step>, i: nat, end: nat)
    requires Connects(path, 0, end) && i < |path| && path[i].to != end
    ensures i + 1 < |path| && path[i + 1].from == path[i].to
  {
  }

  lemma AtEnd(path: seq<Step>, i: nat, end: nat)
    requires Connects(path, 0, end) && i < |path| && path[i].to == end
    ensures i + 1 == |path|
  {
    if i + 1 < |path| { FromsAscend(path, 0, end, i + 1); }
  }

  lemma NothingTurned(opt: seq<Node>, end: nat)
    ensures Turned(opt, []) && Connects([], end, end)
  {
  }

  lemma AppendOne(a: seq<Step>, s: Step, done: seq<Step>)
    ensures a + [s] + done == a + ([s] + done)
  {
  }

  lemma AllTurned(opt: seq<Node>, held: seq<Node>, path: seq<Step>, done: seq<Step>, end: nat)
    requires 0 < |held| && Chain(held, 0) && path == Path(held, 0) + done
    requires Connects(done, 0, end) && Turned(opt, done) && end > 0
    ensures path == done && path != [] && path[0].from == 0 && 0 < |opt|
    ensures path[0] == Step(0, opt[0].posPrev, opt[0].backPrev) && Turned(opt, path)
  {
  }
}

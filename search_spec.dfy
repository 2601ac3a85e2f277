/** The values the search computes, defined without pruning, windows or move
    ordering: the quiescence value of a position and the full-width minimax value
    whose leaves are quiescence values. The engine's methods are proved against
    these functions. */
module SearchSpec {
  import opened ChessTypes
  import opened Evaluation

  function Max(a: int, b: int): int { if a < b then b else a }

  function Min(a: int, b: int): int { if b < a then b else a }

  /** `evaluate_board()` with its default colour: the static score from Black's
      point of view, at every ply. */
  function StandPat(n: Node, t: Color): int {
    -StaticEval(n, t)
  }

  /** A move quiescence searches: a capture, unless both squares hold a piece and
      the victim is worth less than the attacker. */
  predicate Allowed(p: Placement, e: Edge) {
    && e.capture
    && !(&& p[e.move.to].Some? && p[e.move.from].Some?
         && PieceValue(p[e.move.to].value.kind) < PieceValue(p[e.move.from].value.kind))
  }

  /** The quiescence value Q: the stand-pat score or, if better, the negated value
      of an allowed capture. The captures are those of the colour that evaluation
      leaves to move. */
  function QuiescenceValue(n: Node, t: Color): int
    decreases n, 1
  {
    QuiescencePrefix(n, t, |MovesOf(n, EvalTurn(n, t))|)
  }

  /** Q over the first `k` moves only. */
  function QuiescencePrefix(n: Node, t: Color, k: nat): int
    requires k <= |MovesOf(n, EvalTurn(n, t))|
    decreases n, 0, k
  {
    if k == 0 then StandPat(n, t)
    else
      var u := EvalTurn(n, t);
      var e := MovesOf(n, u)[k - 1];
      var best := QuiescencePrefix(n, t, k - 1);
      if Allowed(n.placement, e) then Max(best, -QuiescenceValue(e.child, Opp(u))) else best
  }

  /** Q over a prefix is at least the stand-pat score and at least the negated
      value of every allowed capture among those moves. */
  lemma {:induction false} QuiescencePrefixAtLeast(n: Node, t: Color, k: nat)
    requires k <= |MovesOf(n, EvalTurn(n, t))|
    ensures StandPat(n, t) <= QuiescencePrefix(n, t, k)
    ensures forall j :: 0 <= j < k && Allowed(n.placement, MovesOf(n, EvalTurn(n, t))[j]) ==>
      -QuiescenceValue(MovesOf(n, EvalTurn(n, t))[j].child, Opp(EvalTurn(n, t))) <= QuiescencePrefix(n, t, k)
  {
    if k > 0 {
      QuiescencePrefixAtLeast(n, t, k - 1);
    }
  }

  /** Q over a prefix is the stand-pat score or the negated value of one of the
      allowed captures among those moves. */
  lemma {:induction false} QuiescencePrefixAttained(n: Node, t: Color, k: nat)
    requires k <= |MovesOf(n, EvalTurn(n, t))|
    ensures || QuiescencePrefix(n, t, k) == StandPat(n, t)
            || exists j :: 0 <= j < k && Allowed(n.placement, MovesOf(n, EvalTurn(n, t))[j])
                 && QuiescencePrefix(n, t, k)
                    == -QuiescenceValue(MovesOf(n, EvalTurn(n, t))[j].child, Opp(EvalTurn(n, t)))
  {
    if k > 0 {
      QuiescencePrefixAttained(n, t, k - 1);
      var u := EvalTurn(n, t);
      var e := MovesOf(n, u)[k - 1];
      var best := QuiescencePrefix(n, t, k - 1);
      if Allowed(n.placement, e) && best < -QuiescenceValue(e.child, Opp(u)) {
        assert QuiescencePrefix(n, t, k) == -QuiescenceValue(e.child, Opp(u));
      } else {
        assert QuiescencePrefix(n, t, k) == best;
      }
    }
  }

  /** One more move: an allowed capture raises the prefix value to minus the
      child's value if that is larger; any other move leaves it. */
  lemma QuiescencePrefixStep(n: Node, t: Color, i: nat)
    requires i < |MovesOf(n, EvalTurn(n, t))|
    ensures var e := MovesOf(n, EvalTurn(n, t))[i];
      QuiescencePrefix(n, t, i + 1)
        == if Allowed(n.placement, e) then Max(QuiescencePrefix(n, t, i), -QuiescenceValue(e.child, Opp(EvalTurn(n, t))))
           else QuiescencePrefix(n, t, i)
  {
  }

  /** Every prefix value is at most the quiescence value. */
  lemma {:induction false} QuiescencePrefixAtMost(n: Node, t: Color, k: nat)
    requires k <= |MovesOf(n, EvalTurn(n, t))|
    ensures QuiescencePrefix(n, t, k) <= QuiescenceValue(n, t)
    decreases |MovesOf(n, EvalTurn(n, t))| - k
  {
    if k < |MovesOf(n, EvalTurn(n, t))| {
      QuiescencePrefixAtMost(n, t, k + 1);
    }
  }

  lemma QuiescenceBounds(n: Node, t: Color)
    ensures StandPat(n, t) <= QuiescenceValue(n, t)
    ensures forall e :: e in MovesOf(n, EvalTurn(n, t)) && Allowed(n.placement, e) ==>
      -QuiescenceValue(e.child, Opp(EvalTurn(n, t))) <= QuiescenceValue(n, t)
    ensures || QuiescenceValue(n, t) == StandPat(n, t)
            || exists e :: e in MovesOf(n, EvalTurn(n, t)) && Allowed(n.placement, e)
                 && QuiescenceValue(n, t) == -QuiescenceValue(e.child, Opp(EvalTurn(n, t)))
  {
    QuiescencePrefixAtLeast(n, t, |MovesOf(n, EvalTurn(n, t))|);
    QuiescencePrefixAttained(n, t, |MovesOf(n, EvalTurn(n, t))|);
  }

  /** The value of a position searched `depth` plies deep, without pruning, with
      the same terminal rules as `minimax`: quiescence at depth 0, then mate,
      then draw, then the stand-pat score when there is no move. */
  function MinimaxValue(n: Node, t: Color, depth: nat, maximizing: bool): int
    decreases n, 1
  {
    if depth == 0 then QuiescenceValue(n, t)
    else if SideOf(n, t).checkmate then (if maximizing then -MateScore else MateScore)
    else if SideOf(n, t).stalemate || n.insufficient then 0
    else if |MovesOf(n, t)| == 0 then StandPat(n, t)
    else BestOf(n, t, depth, maximizing, |MovesOf(n, t)|)
  }

  /** The best child value over the first `k` moves: the maximum when maximizing,
      the minimum otherwise. */
  function BestOf(n: Node, t: Color, depth: nat, maximizing: bool, k: nat): int
    requires 1 <= depth && 1 <= k <= |MovesOf(n, t)|
    decreases n, 0, k
  {
    var v := MinimaxValue(MovesOf(n, t)[k - 1].child, Opp(t), depth - 1, !maximizing);
    if k == 1 then v
    else if maximizing then Max(BestOf(n, t, depth, maximizing, k - 1), v)
    else Min(BestOf(n, t, depth, maximizing, k - 1), v)
  }

  /** The value of playing `e` with `t` to move, the reply searched `depth` plies
      deep with the given role. */
  function ChildValue(e: Edge, t: Color, depth: nat, maximizing: bool): int {
    MinimaxValue(e.child, Opp(t), depth, maximizing)
  }

  lemma {:induction false} BestOfBounds(n: Node, t: Color, depth: nat, maximizing: bool, k: nat)
    requires 1 <= depth && 1 <= k <= |MovesOf(n, t)|
    ensures forall j :: 0 <= j < k ==>
      if maximizing then ChildValue(MovesOf(n, t)[j], t, depth - 1, false) <= BestOf(n, t, depth, maximizing, k)
      else ChildValue(MovesOf(n, t)[j], t, depth - 1, true) >= BestOf(n, t, depth, maximizing, k)
    ensures exists j :: (0 <= j < k
      && ChildValue(MovesOf(n, t)[j], t, depth - 1, !maximizing) == BestOf(n, t, depth, maximizing, k))
  {
    if k > 1 {
      BestOfBounds(n, t, depth, maximizing, k - 1);
    }
    assert ChildValue(MovesOf(n, t)[k - 1], t, depth - 1, !maximizing)
        == MinimaxValue(MovesOf(n, t)[k - 1].child, Opp(t), depth - 1, !maximizing);
  }

  /** Away from the terminal cases, the minimax value of a position with moves is the
      largest (maximizing) or smallest (minimizing) value of its children: it bounds
      every child and some child reaches it, whatever order the moves come in. */
  lemma MinimaxChildren(n: Node, t: Color, depth: nat, maximizing: bool)
    requires depth >= 1 && !IsTerminal(n, t) && |MovesOf(n, t)| > 0
    ensures forall e :: e in MovesOf(n, t) ==>
      if maximizing then ChildValue(e, t, depth - 1, false) <= MinimaxValue(n, t, depth, maximizing)
      else ChildValue(e, t, depth - 1, true) >= MinimaxValue(n, t, depth, maximizing)
    ensures exists e :: (e in MovesOf(n, t)
      && ChildValue(e, t, depth - 1, !maximizing) == MinimaxValue(n, t, depth, maximizing))
  {
    BestOfBounds(n, t, depth, maximizing, |MovesOf(n, t)|);
    var j :| 0 <= j < |MovesOf(n, t)|
      && ChildValue(MovesOf(n, t)[j], t, depth - 1, !maximizing) == BestOf(n, t, depth, maximizing, |MovesOf(n, t)|);
    assert MovesOf(n, t)[j] in MovesOf(n, t);
  }

  /** The same for any ordering of the moves: the minimax value does not depend on
      the order in which the search visits them. */
  lemma MinimaxOverPermutation(n: Node, t: Color, depth: nat, maximizing: bool, moves: seq<Edge>)
    requires depth >= 1 && !IsTerminal(n, t) && |MovesOf(n, t)| > 0
    requires multiset(moves) == multiset(MovesOf(n, t))
    ensures forall j :: 0 <= j < |moves| ==>
      if maximizing then ChildValue(moves[j], t, depth - 1, false) <= MinimaxValue(n, t, depth, maximizing)
      else ChildValue(moves[j], t, depth - 1, true) >= MinimaxValue(n, t, depth, maximizing)
    ensures exists j :: (0 <= j < |moves|
      && ChildValue(moves[j], t, depth - 1, !maximizing) == MinimaxValue(n, t, depth, maximizing))
  {
    MinimaxChildren(n, t, depth, maximizing);
    forall j | 0 <= j < |moves|
      ensures moves[j] in MovesOf(n, t)
    {
      assert moves[j] in multiset(moves);
    }
    var e :| e in MovesOf(n, t) && ChildValue(e, t, depth - 1, !maximizing) == MinimaxValue(n, t, depth, maximizing);
    assert e in multiset(moves);
    var j :| 0 <= j < |moves| && moves[j] == e;
  }

  /** The number of the last iterative-deepening pass that completed when the
      passes listed in `failing` raise, counting from 1 and stopping at the
      first failure: 0 when the first pass fails. */
  function LastCompleted(depth: nat, failing: set<nat>): (r: nat)
    ensures r <= depth
    ensures forall d :: 1 <= d <= r ==> d !in failing
    ensures r < depth ==> r + 1 in failing
  {
    if depth == 0 then 0
    else if LastCompleted(depth - 1, failing) == depth - 1 && depth !in failing then depth
    else LastCompleted(depth - 1, failing)
  }

  /** The last completed pass is the only depth with no failure up to it and,
      below `depth`, a failure just after it. */
  lemma LastCompletedUnique(depth: nat, failing: set<nat>, c: nat)
    requires c <= depth
    requires forall d :: 1 <= d <= c ==> d !in failing
    requires c < depth ==> c + 1 in failing
    ensures LastCompleted(depth, failing) == c
  {
    var r := LastCompleted(depth, failing);
    if r < c {
      assert false;
    }
  }
}

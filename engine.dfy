/** The search engine: alpha-beta minimax with principal variation search,
    a capture-only quiescence search, move ordering with a global killer table and
    a history table, the root move loop and the iterative-deepening driver; and the
    wrapper that plays the engine's move and resets the game.

    Every search method restores the board it was given (each `Push` is paired
    with a `Pop`), and is proved against the unpruned values of `SearchSpec`. */
module SearchEngine {
  import opened ChessTypes
  import opened BoardState
  import opened Evaluation
  import opened Scores
  import opened StableSort
  import opened MoveOrdering
  import opened SearchSpec

  // ---------------------------------------------------------------- tables

  /** `_update_killer` on the killer list. */
  function KillerUpdate(killers: Killers, m: Move): Killers {
    if Some(m) in killers then killers
    else
      var k := [Some(m)] + killers;
      if |k| > 2 then k[..|k| - 1] else k
  }

  /** A move already in the table leaves it as it is; any other move enters the
      first slot and pushes the old first slot into the second. */
  lemma KillerUpdateTable(killers: Killers, m: Move)
    requires |killers| == 2
    ensures Some(m) in killers ==> KillerUpdate(killers, m) == killers
    ensures Some(m) !in killers ==> KillerUpdate(killers, m) == [Some(m), killers[0]]
    ensures |KillerUpdate(killers, m)| == 2 && Some(m) in KillerUpdate(killers, m)
  {
  }

  /** The two killer slots, never the same move twice. */
  predicate KillersDistinct(killers: Killers) {
    |killers| == 2 && (killers[0].Some? ==> killers[0] != killers[1])
  }

  /** The update keeps the two slots distinct. */
  lemma KillerUpdateDistinct(killers: Killers, m: Move)
    requires KillersDistinct(killers)
    ensures KillersDistinct(KillerUpdate(killers, m))
  {
    KillerUpdateTable(killers, m);
  }

  /** `_update_history`: the move's (from, to) entry, 0 when missing, grows by
      depth squared. */
  function HistoryUpdate(h: History, m: Move, depth: int): History {
    var key := (m.from, m.to);
    h[key := (if key in h then h[key] else 0) + depth * depth]
  }

  /** No entry disappears and none decreases. */
  predicate HistoryGrows(h0: History, h1: History) {
    forall key :: key in h0 ==> key in h1 && h0[key] <= h1[key]
  }

  lemma HistoryUpdateTable(h: History, m: Move, depth: int)
    ensures (m.from, m.to) in HistoryUpdate(h, m, depth)
    ensures HistoryUpdate(h, m, depth)[(m.from, m.to)]
         == (if (m.from, m.to) in h then h[(m.from, m.to)] else 0) + depth * depth
    ensures forall key :: key != (m.from, m.to) ==>
      (key in HistoryUpdate(h, m, depth) <==> key in h)
      && (key in h ==> HistoryUpdate(h, m, depth)[key] == h[key])
    ensures HistoryGrows(h, HistoryUpdate(h, m, depth))
  {
  }

  // ------------------------------------------------------------ root search

  /** The value `_search_move` gets for root move `e` when searching for `color`:
      Black's replies are searched minimizing, White's maximizing. */
  function RootValue(e: Edge, t: Color, depth: nat, color: Color): int {
    ChildValue(e, t, depth, color == White)
  }

  /** `x` is strictly better than `y` for `color`: larger for Black, smaller for White. */
  predicate Better(color: Color, x: int, y: int) {
    if color == Black then x > y else x < y
  }

  /** `m` is a move of best value for `color` at the root `n` with `t` to move,
      its replies searched `depth - 1` plies deep. */
  predicate BestAtDepth(n: Node, t: Color, depth: nat, color: Color, m: Move)
    requires depth >= 1
  {
    exists e :: e in MovesOf(n, t) && e.move == m
      && forall f :: f in MovesOf(n, t) ==> !Better(color, RootValue(f, t, depth - 1, color), RootValue(e, t, depth - 1, color))
  }

  /** `m` is the move at the earliest position `k` of `ordered` whose value is best:
      no move is better, and every move before it is strictly worse. */
  predicate EarliestBest(ordered: seq<Edge>, t: Color, depth: nat, color: Color, m: Move)
    requires depth >= 1
  {
    exists k :: 0 <= k < |ordered| && ordered[k].move == m
      && (forall j :: 0 <= j < |ordered| ==>
            !Better(color, RootValue(ordered[j], t, depth - 1, color), RootValue(ordered[k], t, depth - 1, color)))
      && (forall j :: 0 <= j < k ==>
            Better(color, RootValue(ordered[k], t, depth - 1, color), RootValue(ordered[j], t, depth - 1, color)))
  }

  /** The earliest best move of any ordering of the legal moves is a best move. */
  lemma EarliestIsBest(n: Node, t: Color, depth: nat, color: Color, ordered: seq<Edge>, m: Move)
    requires depth >= 1 && multiset(ordered) == multiset(MovesOf(n, t))
    requires EarliestBest(ordered, t, depth, color, m)
    ensures BestAtDepth(n, t, depth, color, m)
  {
    var k :| 0 <= k < |ordered| && ordered[k].move == m
      && (forall j :: 0 <= j < |ordered| ==>
            !Better(color, RootValue(ordered[j], t, depth - 1, color), RootValue(ordered[k], t, depth - 1, color)));
    assert ordered[k] in multiset(ordered);
    forall f | f in MovesOf(n, t)
      ensures !Better(color, RootValue(f, t, depth - 1, color), RootValue(ordered[k], t, depth - 1, color))
    {
      assert f in multiset(ordered);
      var j :| 0 <= j < |ordered| && ordered[j] == f;
    }
  }

  /** The first legal move, the fallback of `_search_move`. */
  function FirstMove(moves: seq<Edge>): (r: Option<Move>)
    ensures r.None? <==> moves == []
  {
    if |moves| > 0 then Some(moves[0].move) else None
  }

  /** The turn a search of the position `n` with `t` to move leaves on the board:
      evaluation sets it to White unless the position was terminal. */
  function TurnAfterSearch(n: Node, t: Color, depth: nat): Color {
    if depth == 0 || (!IsTerminal(n, t) && |MovesOf(n, t)| == 0) then EvalTurn(n, t) else t
  }

  /** A position on any placement `p`, reported consistently, in which White has
      two quiet moves and Black one, each leading to a stalemate: evaluating it with
      White to move adds a mobility term of +2. */
  function WrongTurnWitness(p: Placement): Node {
    var drawn := Side([], false, true, false, true);
    var leaf := Node(p, drawn, drawn, false);
    var whiteSide := Side([Edge(Move(8, 16, None), false, leaf), Edge(Move(9, 17, None), false, leaf)],
                          false, false, false, false);
    var blackSide := Side([Edge(Move(48, 40, None), false, leaf)], false, false, false, false);
    Node(p, whiteSide, blackSide, false)
  }

  /** The witness has no capture for either colour, so its quiescence value is the
      stand-pat score whichever colour is to move. */
  lemma WitnessQuiescence(p: Placement)
    ensures var c := WrongTurnWitness(p);
      && Consistent(c)
      && !IsTerminal(c, Black) && MovesOf(c, Black) != []
      && QuiescenceValue(c, Black) == StandPat(c, Black)
      && QuiescenceValue(c, White) == StandPat(c, White)
  {
    var c := WrongTurnWitness(p);
    var leaf := MovesOf(c, Black)[0].child;
    assert Consistent(leaf);
    assert forall e :: e in MovesOf(c, White) ==> e.child == leaf;
    assert !IsTerminal(c, Black) && !IsTerminal(c, White);
    assert QuiescencePrefix(c, Black, 1) == QuiescencePrefix(c, Black, 0);
    assert QuiescencePrefix(c, White, 1) == QuiescencePrefix(c, White, 0);
    assert QuiescenceValue(c, Black) == QuiescencePrefix(c, Black, 2);
    assert QuiescenceValue(c, White) == QuiescencePrefix(c, White, 2);
  }

  /** With White to move the mobility term of the witness is +2 (two White moves,
      one Black move) instead of 0, so the stand-pat score seen from Black is 2 lower. */
  lemma WitnessMobility(p: Placement)
    ensures StandPat(WrongTurnWitness(p), White) == StandPat(WrongTurnWitness(p), Black) - 2
  {
    var c := WrongTurnWitness(p);
    assert !IsTerminal(c, Black) && !IsTerminal(c, White);
    assert Mobility(c, Black) == 0 && Mobility(c, White) == 2;
  }

  /** The re-search of the minimizing branch as written gives a wrong exact value.
      Searched at depth 0 with Black to move, the witness on any placement is worth `v`; the probe
      with the window (v + 9, v + 10) returns v + 9, strictly inside (v - 10, v + 10),
      so the source re-searches; but the probe has left White to move, and the
      re-search returns v - 2, inside the window and yet not the child's value. */
  lemma ResearchSeesWrongTurn(p: Placement)
    ensures var c := WrongTurnWitness(p);
      var v := MinimaxValue(c, Black, 0, true);
      var alpha, beta := Fin(v - 10), Fin(v + 10);
      && Consistent(c)
      && TurnAfterSearch(c, Black, 0) == White
      && Clamp(v, Minus1(beta), beta) == Fin(v + 9)
      && Lt(alpha, Fin(v + 9)) && Lt(Fin(v + 9), beta)
      && Clamp(MinimaxValue(c, White, 0, true), alpha, beta) == Fin(v - 2)
      && !Sound(v - 2, v, alpha, beta)
  {
    WitnessQuiescence(p);
    WitnessMobility(p);
  }

  // ------------------------------------------------------------------ engine

  /** The maximizing loop's record after `i` moves: `best` bounds the first `i`
      child values and, once above alpha, is one of them. */
  ghost predicate MaxSoFar(moves: seq<Edge>, t: Color, d: nat, i: nat, alpha: Ext, best: Ext)
    requires i <= |moves|
  {
    && (if i == 0 then best == NegInf else best.Fin?)
    && (forall j :: 0 <= j < i ==> ChildValue(moves[j], t, d, false) <= best.v)
    && (Lt(alpha, best) ==> exists j :: 0 <= j < i && ChildValue(moves[j], t, d, false) == best.v)
  }

  /** The minimizing loop's record: `best` is below the first `i` child values
      and, once below beta, is one of them. */
  ghost predicate MinSoFar(moves: seq<Edge>, t: Color, d: nat, i: nat, beta: Ext, best: Ext)
    requires i <= |moves|
  {
    && (if i == 0 then best == PosInf else best.Fin?)
    && (forall j :: 0 <= j < i ==> ChildValue(moves[j], t, d, true) >= best.v)
    && (Lt(best, beta) ==> exists j :: 0 <= j < i && ChildValue(moves[j], t, d, true) == best.v)
  }

  /** A move whose searched score `eval` is at least its child value, and equal to
      it when it improves on both `best` and alpha, extends the record. */
  lemma MaxSoFarStep(moves: seq<Edge>, t: Color, d: nat, i: nat, alpha: Ext, best: Ext, eval: int)
    requires i < |moves| && MaxSoFar(moves, t, d, i, alpha, best)
    requires ChildValue(moves[i], t, d, false) <= eval
    requires Lt(best, Fin(eval)) && Lt(alpha, Fin(eval)) ==> ChildValue(moves[i], t, d, false) == eval
    ensures MaxSoFar(moves, t, d, i + 1, alpha, MaxE(best, Fin(eval)))
  {
    var nb := MaxE(best, Fin(eval));
    if Lt(alpha, nb) {
      if nb == Fin(eval) && Lt(best, Fin(eval)) {
        assert ChildValue(moves[i], t, d, false) == nb.v;
      } else {
        var j :| 0 <= j < i && ChildValue(moves[j], t, d, false) == best.v;
        assert ChildValue(moves[j], t, d, false) == nb.v;
      }
    }
  }

  lemma MinSoFarStep(moves: seq<Edge>, t: Color, d: nat, i: nat, beta: Ext, best: Ext, eval: int)
    requires i < |moves| && MinSoFar(moves, t, d, i, beta, best)
    requires ChildValue(moves[i], t, d, true) >= eval
    requires Lt(Fin(eval), best) && Lt(Fin(eval), beta) ==> ChildValue(moves[i], t, d, true) == eval
    ensures MinSoFar(moves, t, d, i + 1, beta, MinE(best, Fin(eval)))
  {
    var nb := MinE(best, Fin(eval));
    if Lt(nb, beta) {
      if nb == Fin(eval) && Lt(Fin(eval), best) {
        assert ChildValue(moves[i], t, d, true) == nb.v;
      } else {
        var j :| 0 <= j < i && ChildValue(moves[j], t, d, true) == best.v;
        assert ChildValue(moves[j], t, d, true) == nb.v;
      }
    }
  }

  class Engine {
    var board: Board
    var killers: Killers
    var history: History
    var nodes: nat
    /** The number of beta cutoffs so far; only a cutoff touches the tables. */
    ghost var cutoffs: nat

    ghost predicate Valid()
      reads this
    {
      KillersDistinct(killers)
    }

    constructor (board: Board)
      ensures Valid()
      ensures this.board == board && killers == [None, None] && history == map[] && nodes == 0
    {
      this.board := board;
      killers := [None, None];
      history := map[];
      nodes := 0;
      cutoffs := 0;
    }

    method UpdateKiller(m: Move)
      modifies this`killers
      ensures killers == KillerUpdate(old(killers), m)
    {
      if Some(m) !in killers {
        killers := [Some(m)] + killers;
        if |killers| > 2 {
          killers := killers[..|killers| - 1];
        }
      }
    }

    method UpdateHistory(m: Move, depth: int)
      modifies this`history
      ensures history == HistoryUpdate(old(history), m, depth)
    {
      var key := (m.from, m.to);
      var bonus := depth * depth;
      history := history[key := (if key in history then history[key] else 0) + bonus];
    }

    /** A beta cutoff: the move becomes a killer and its history entry grows. */
    method RecordCutoff(m: Move, depth: int)
      requires Valid()
      modifies this`killers, this`history, this`cutoffs
      ensures Valid()
      ensures killers == KillerUpdate(old(killers), m) && history == HistoryUpdate(old(history), m, depth)
      ensures HistoryGrows(old(history), history)
      ensures cutoffs == old(cutoffs) + 1
    {
      UpdateKiller(m);
      UpdateHistory(m, depth);
      HistoryUpdateTable(old(history), m, depth);
      KillerUpdateDistinct(old(killers), m);
      cutoffs := cutoffs + 1;
    }

    /** `evaluate_board(color)`: the static score, negated for Black. */
    method EvaluateBoard(color: Color) returns (score: int)
      modifies board`turn
      ensures score == if color == Black then -StaticEval(old(board.node), old(board.turn))
                       else StaticEval(old(board.node), old(board.turn))
      ensures board.turn == EvalTurn(old(board.node), old(board.turn))
    {
      score := Evaluation.EvaluateBoard(board);
      if color == Black {
        score := -score;
      }
    }

    /** Fail-hard quiescence: the quiescence value forced into [alpha, beta]. */
    method Quiescence(alpha: Ext, beta: Ext) returns (r: int)
      requires Lt(alpha, beta)
      modifies this`nodes, board
      decreases board.node, 3
      ensures Fin(r) == Clamp(QuiescenceValue(old(board.node), old(board.turn)), alpha, beta)
      ensures board.node == old(board.node) && board.stack == old(board.stack)
      ensures board.turn == EvalTurn(old(board.node), old(board.turn))
      ensures nodes > old(nodes)
    {
      ghost var n, t := board.node, board.turn;
      nodes := nodes + 1;
      var standPat := EvaluateBoard(Black);
      ghost var q := QuiescenceValue(n, t);
      assert standPat == QuiescencePrefix(n, t, 0);
      if Le(beta, Fin(standPat)) {
        QuiescencePrefixAtMost(n, t, 0);
        ClampAbove(q, standPat, alpha, beta);
        return beta.v;
      }
      r := QuiescenceLoop(alpha, beta, MaxE(alpha, Fin(standPat)), n, t);
    }

    /** The capture loop of quiescence, entered with alpha raised by the stand-pat
        score: the result is the quiescence value clamped into [alpha, beta]. */
    method QuiescenceLoop(alpha: Ext, beta: Ext, raised: Ext, ghost n: Node, ghost t: Color) returns (r: int)
      requires board.node == n && board.turn == EvalTurn(n, t)
      requires raised == MaxE(alpha, Fin(QuiescencePrefix(n, t, 0))) && Lt(raised, beta)
      modifies this`nodes, board
      decreases board.node, 2
      ensures Fin(r) == Clamp(QuiescenceValue(n, t), alpha, beta)
      ensures board.node == old(board.node) && board.turn == old(board.turn) && board.stack == old(board.stack)
      ensures nodes >= old(nodes)
    {
      ghost var q := QuiescenceValue(n, t);
      var a := raised;
      var moves := board.LegalMoves();
      for i := 0 to |moves|
        invariant board.node == n && board.turn == old(board.turn) && board.stack == old(board.stack)
        invariant a == MaxE(alpha, Fin(QuiescencePrefix(n, t, i)))
        invariant Lt(a, beta)
        invariant nodes >= old(nodes)
      {
        var cut;
        a, cut := QuiescenceMove(moves[i], alpha, beta, a, n, t, i);
        if cut {
          QuiescencePrefixAtMost(n, t, i + 1);
          ClampAbove(q, QuiescencePrefix(n, t, i + 1), alpha, beta);
          return beta.v;
        }
      }
      ClampBelow(q, alpha, beta);
      return a.v;
    }

    /** Move `i` of the quiescence loop over the moves of the colour evaluation
        left to move, with alpha raised to `a` by the first `i` moves: a move that
        is not an allowed capture changes nothing; an allowed capture is searched
        with the negated window, and alpha rises to the value over the first
        `i + 1` moves unless that reaches beta, which `cut` reports. */
    method QuiescenceMove(e: Edge, alpha: Ext, beta: Ext, a: Ext, ghost n: Node, ghost t: Color, ghost i: nat)
      returns (a': Ext, cut: bool)
      requires board.node == n && board.turn == EvalTurn(n, t)
      requires i < |MovesOf(n, EvalTurn(n, t))| && e == MovesOf(n, EvalTurn(n, t))[i]
      requires a == MaxE(alpha, Fin(QuiescencePrefix(n, t, i))) && Lt(a, beta)
      modifies this`nodes, board
      decreases board.node, 1
      ensures board.node == old(board.node) && board.turn == old(board.turn) && board.stack == old(board.stack)
      ensures nodes >= old(nodes)
      ensures !Allowed(n.placement, e) ==> a' == a && !cut
      ensures cut ==> Le(beta, Fin(QuiescencePrefix(n, t, i + 1)))
      ensures !cut ==> a' == MaxE(alpha, Fin(QuiescencePrefix(n, t, i + 1))) && Lt(a', beta)
    {
      ghost var p := QuiescencePrefix(n, t, i);
      QuiescencePrefixStep(n, t, i);
      a', cut := a, false;
      if !e.capture {
        return;
      }
      var captured := board.PieceAt(e.move.to);
      var attacker := board.PieceAt(e.move.from);
      if captured.Some? && attacker.Some? && PieceValue(captured.value.kind) < PieceValue(attacker.value.kind) {
        return;
      }
      ghost var u := board.turn;
      var score := SearchCapture(e, a, beta);
      RaiseStep(alpha, beta, p, -QuiescenceValue(e.child, Opp(u)), a, score);
      a' := MaxE(a, Fin(score));
      cut := Le(beta, a');
    }

    /** A capture searched by the negated quiescence search: its score, the
        negated quiescence value of the child, clamped into (a, b). */
    method SearchCapture(e: Edge, a: Ext, b: Ext) returns (score: int)
      requires Lt(a, b) && e in board.LegalMoves()
      modifies this`nodes, board
      decreases board.node, 0
      ensures Fin(score) == Clamp(-QuiescenceValue(e.child, Opp(old(board.turn))), a, b)
      ensures board.node == old(board.node) && board.turn == old(board.turn) && board.stack == old(board.stack)
      ensures nodes >= old(nodes)
    {
      ghost var u := board.turn;
      board.Push(e);
      NegLt(a, b);
      var s := Quiescence(Neg(b), Neg(a));
      var _ := board.Pop();
      NegClamp(QuiescenceValue(e.child, Opp(u)), a, b);
      score := -s;
    }

    /** Alpha-beta minimax with principal variation search. The result is sound
        for the window against the unpruned minimax value, and exact at the leaves
        and terminal positions whatever the window; the killer and history
        tables change only through cutoffs, and history entries never decrease. */
    method Minimax(depth: nat, maximizing: bool, alpha: Ext, beta: Ext) returns (r: int)
      requires Valid() && Lt(alpha, beta)
      modifies this`nodes, this`killers, this`history, this`cutoffs, board
      decreases board.node, 3
      ensures Valid()
      ensures Sound(r, MinimaxValue(old(board.node), old(board.turn), depth, maximizing), alpha, beta)
      ensures depth == 0 ==> Fin(r) == Clamp(QuiescenceValue(old(board.node), old(board.turn)), alpha, beta)
      ensures depth >= 1 && SideOf(old(board.node), old(board.turn)).checkmate ==>
        r == (if maximizing then -MateScore else MateScore)
      ensures (depth >= 1 && !SideOf(old(board.node), old(board.turn)).checkmate
               && (SideOf(old(board.node), old(board.turn)).stalemate || old(board.node).insufficient)) ==> r == 0
      ensures depth >= 1 && !IsTerminal(old(board.node), old(board.turn)) && |MovesOf(old(board.node), old(board.turn))| == 0 ==>
        r == StandPat(old(board.node), old(board.turn))
      ensures board.node == old(board.node) && board.stack == old(board.stack)
      ensures board.turn == TurnAfterSearch(old(board.node), old(board.turn), depth)
      ensures HistoryGrows(old(history), history)
      ensures cutoffs >= old(cutoffs)
      ensures cutoffs == old(cutoffs) ==> killers == old(killers) && history == old(history)
      ensures nodes > old(nodes)
    {
      nodes := nodes + 1;
      if depth == 0 {
        ghost var q := QuiescenceValue(board.node, board.turn);
        r := Quiescence(alpha, beta);
        ClampSound(q, alpha, beta);
        return;
      }
      var side := SideOf(board.node, board.turn);
      if side.checkmate {
        return if maximizing then -MateScore else MateScore;
      }
      if side.stalemate || board.node.insufficient {
        return 0;
      }
      var moves := OrderMoves(board.node.placement, killers, history, board.LegalMoves());
      if |moves| == 0 {
        r := EvaluateBoard(Black);
        return;
      }
      if maximizing {
        r := MaxLoop(depth, moves, alpha, beta);
      } else {
        r := MinLoop(depth, moves, alpha, beta);
      }
    }

    /** One move of the maximizing branch: push it, search the reply with the full
        window (the first move) or with the null window (alpha, alpha + 1) and, when
        that lands strictly inside (alpha, beta), again with the full window; pop.
        The turn the reply was searched with is put back before the re-search. */
    method MaxChild(depth: nat, e: Edge, first: bool, alpha: Ext, beta: Ext) returns (eval: int)
      requires Valid() && Lt(alpha, beta) && depth >= 1 && e in board.LegalMoves()
      requires !first ==> alpha.Fin?
      modifies this`nodes, this`killers, this`history, this`cutoffs, board
      decreases board.node, 0
      ensures Valid()
      ensures Sound(eval, ChildValue(e, old(board.turn), depth - 1, false), alpha, beta)
      ensures board.node == old(board.node) && board.turn == old(board.turn) && board.stack == old(board.stack)
      ensures HistoryGrows(old(history), history)
      ensures cutoffs >= old(cutoffs)
      ensures cutoffs == old(cutoffs) ==> killers == old(killers) && history == old(history)
      ensures nodes >= old(nodes)
    {
      ghost var cv := ChildValue(e, board.turn, depth - 1, false);
      board.Push(e);
      if first {
        eval := Minimax(depth - 1, false, alpha, beta);
      } else {
        var childTurn := board.turn;
        eval := Minimax(depth - 1, false, alpha, Plus1(alpha));
        if Lt(alpha, Fin(eval)) && Lt(Fin(eval), beta) {
          board.turn := childTurn;
          eval := Minimax(depth - 1, false, alpha, beta);
        } else {
          NullWindowUpper(eval, cv, alpha, beta);
        }
      }
      var _ := board.Pop();
    }

    /** One move of the minimizing branch, with the null window (beta - 1, beta). */
    method MinChild(depth: nat, e: Edge, first: bool, alpha: Ext, beta: Ext) returns (eval: int)
      requires Valid() && Lt(alpha, beta) && depth >= 1 && e in board.LegalMoves()
      requires !first ==> beta.Fin?
      modifies this`nodes, this`killers, this`history, this`cutoffs, board
      decreases board.node, 0
      ensures Valid()
      ensures Sound(eval, ChildValue(e, old(board.turn), depth - 1, true), alpha, beta)
      ensures board.node == old(board.node) && board.turn == old(board.turn) && board.stack == old(board.stack)
      ensures HistoryGrows(old(history), history)
      ensures cutoffs >= old(cutoffs)
      ensures cutoffs == old(cutoffs) ==> killers == old(killers) && history == old(history)
      ensures nodes >= old(nodes)
    {
      ghost var cv := ChildValue(e, board.turn, depth - 1, true);
      board.Push(e);
      if first {
        eval := Minimax(depth - 1, true, alpha, beta);
      } else {
        var childTurn := board.turn;
        eval := Minimax(depth - 1, true, Minus1(beta), beta);
        if Lt(alpha, Fin(eval)) && Lt(Fin(eval), beta) {
          board.turn := childTurn;
          eval := Minimax(depth - 1, true, alpha, beta);
        } else {
          NullWindowLower(eval, cv, alpha, beta);
        }
      }
      var _ := board.Pop();
    }

    /** The null-window probe and re-search of the minimizing branch as the
        source writes them, for a move already pushed: the probe may leave White
        to move (evaluation sets the turn), and the re-search then searches the
        child with that turn instead of its own. */
    method MinProbeAsWritten(depth: nat, alpha: Ext, beta: Ext) returns (eval: int)
      requires Valid() && Lt(alpha, beta) && beta.Fin?
      modifies this`nodes, this`killers, this`history, this`cutoffs, board
      ensures Valid()
      ensures board.node == old(board.node) && board.stack == old(board.stack)
      ensures Lt(alpha, Fin(eval)) && Lt(Fin(eval), beta) ==>
        eval == MinimaxValue(old(board.node), TurnAfterSearch(old(board.node), old(board.turn), depth), depth, true)
    {
      eval := Minimax(depth, true, Minus1(beta), beta);
      if Lt(alpha, Fin(eval)) && Lt(Fin(eval), beta) {
        eval := Minimax(depth, true, alpha, beta);
      }
    }

    /** The maximizing branch of `minimax` over the ordered moves. */
    method MaxLoop(depth: nat, moves: seq<Edge>, alpha: Ext, beta: Ext) returns (r: int)
      requires Valid() && Lt(alpha, beta) && depth >= 1
      requires !IsTerminal(board.node, board.turn) && |moves| > 0
      requires multiset(moves) == multiset(board.LegalMoves())
      modifies this`nodes, this`killers, this`history, this`cutoffs, board
      decreases board.node, 2
      ensures Valid()
      ensures Sound(r, MinimaxValue(old(board.node), old(board.turn), depth, true), alpha, beta)
      ensures board.node == old(board.node) && board.turn == old(board.turn) && board.stack == old(board.stack)
      ensures HistoryGrows(old(history), history)
      ensures cutoffs >= old(cutoffs)
      ensures cutoffs == old(cutoffs) ==> killers == old(killers) && history == old(history)
      ensures nodes >= old(nodes)
    {
      ghost var n, t := board.node, board.turn;
      MinimaxOverPermutation(n, t, depth, true, moves);
      var a := alpha;
      var maxEval: Ext := NegInf;
      var isFirst := true;
      var i := 0;
      while i < |moves|
        invariant 0 <= i <= |moves|
        invariant board.node == n && board.turn == t && board.stack == old(board.stack)
        invariant Valid()
        invariant isFirst <==> i == 0
        invariant a == MaxE(alpha, maxEval) && Lt(a, beta)
        invariant MaxSoFar(moves, t, depth - 1, i, alpha, maxEval)
        invariant HistoryGrows(old(history), history)
        invariant cutoffs >= old(cutoffs)
        invariant cutoffs == old(cutoffs) ==> killers == old(killers) && history == old(history)
        invariant nodes >= old(nodes)
      {
        assert moves[i] in multiset(moves);
        var cut;
        maxEval, a, cut := MaxMove(depth, moves, i, isFirst, alpha, beta, a, maxEval);
        isFirst := false;
        if cut {
          break;
        }
        i := i + 1;
      }
      r := maxEval.v;
    }

    /** The minimizing branch of `minimax` over the ordered moves. */
    method MinLoop(depth: nat, moves: seq<Edge>, alpha: Ext, beta: Ext) returns (r: int)
      requires Valid() && Lt(alpha, beta) && depth >= 1
      requires !IsTerminal(board.node, board.turn) && |moves| > 0
      requires multiset(moves) == multiset(board.LegalMoves())
      modifies this`nodes, this`killers, this`history, this`cutoffs, board
      decreases board.node, 2
      ensures Valid()
      ensures Sound(r, MinimaxValue(old(board.node), old(board.turn), depth, false), alpha, beta)
      ensures board.node == old(board.node) && board.turn == old(board.turn) && board.stack == old(board.stack)
      ensures HistoryGrows(old(history), history)
      ensures cutoffs >= old(cutoffs)
      ensures cutoffs == old(cutoffs) ==> killers == old(killers) && history == old(history)
      ensures nodes >= old(nodes)
    {
      ghost var n, t := board.node, board.turn;
      MinimaxOverPermutation(n, t, depth, false, moves);
      var b := beta;
      var minEval: Ext := PosInf;
      var isFirst := true;
      var i := 0;
      while i < |moves|
        invariant 0 <= i <= |moves|
        invariant board.node == n && board.turn == t && board.stack == old(board.stack)
        invariant Valid()
        invariant isFirst <==> i == 0
        invariant b == MinE(beta, minEval) && Lt(alpha, b)
        invariant MinSoFar(moves, t, depth - 1, i, beta, minEval)
        invariant HistoryGrows(old(history), history)
        invariant cutoffs >= old(cutoffs)
        invariant cutoffs == old(cutoffs) ==> killers == old(killers) && history == old(history)
        invariant nodes >= old(nodes)
      {
        assert moves[i] in multiset(moves);
        var cut;
        minEval, b, cut := MinMove(depth, moves, i, isFirst, alpha, beta, b, minEval);
        isFirst := false;
        if cut {
          break;
        }
        i := i + 1;
      }
      r := minEval.v;
    }
  
    /** One pass of the maximizing loop: search `moves[i]` with alpha raised to `a`,
        raise the best score and alpha, and on a cutoff record the move. */
    method MaxMove(depth: nat, moves: seq<Edge>, i: nat, first: bool, alpha: Ext, beta: Ext, a: Ext, best: Ext)
      returns (best': Ext, a': Ext, cut: bool)
      requires Valid() && Lt(alpha, beta) && depth >= 1
      requires i < |moves| && moves[i] in board.LegalMoves() && (first <==> i == 0)
      requires a == MaxE(alpha, best) && Lt(a, beta)
      requires MaxSoFar(moves, board.turn, depth - 1, i, alpha, best)
      modifies this`nodes, this`killers, this`history, this`cutoffs, board
      decreases board.node, 1
      ensures Valid()
      ensures board.node == old(board.node) && board.turn == old(board.turn) && board.stack == old(board.stack)
      ensures HistoryGrows(old(history), history)
      ensures cutoffs >= old(cutoffs)
      ensures cutoffs == old(cutoffs) ==> killers == old(killers) && history == old(history)
      ensures nodes >= old(nodes)
      ensures cut ==> best'.Fin? && Le(beta, best') && best'.v <= ChildValue(moves[i], old(board.turn), depth - 1, false)
      ensures !cut ==> a' == MaxE(alpha, best') && Lt(a', beta)
      ensures !cut ==> MaxSoFar(moves, old(board.turn), depth - 1, i + 1, alpha, best')
    {
      var e := moves[i];
      ghost var t := board.turn;
      ghost var cv := ChildValue(e, t, depth - 1, false);
      var eval := MaxChild(depth, e, first, a, beta);
      MaxStep(alpha, beta, best, a, eval, cv);
      cut := Le(beta, MaxE(a, Fin(eval)));
      if cut {
        RecordCutoff(e.move, depth);
      } else {
        MaxSoFarStep(moves, t, depth - 1, i, alpha, best, eval);
      }
      best' := MaxE(best, Fin(eval));
      a' := MaxE(a, Fin(eval));
    }

    /** One pass of the minimizing loop, lowering beta to `b`. */
    method MinMove(depth: nat, moves: seq<Edge>, i: nat, first: bool, alpha: Ext, beta: Ext, b: Ext, best: Ext)
      returns (best': Ext, b': Ext, cut: bool)
      requires Valid() && Lt(alpha, beta) && depth >= 1
      requires i < |moves| && moves[i] in board.LegalMoves() && (first <==> i == 0)
      requires b == MinE(beta, best) && Lt(alpha, b)
      requires MinSoFar(moves, board.turn, depth - 1, i, beta, best)
      modifies this`nodes, this`killers, this`history, this`cutoffs, board
      decreases board.node, 1
      ensures Valid()
      ensures board.node == old(board.node) && board.turn == old(board.turn) && board.stack == old(board.stack)
      ensures HistoryGrows(old(history), history)
      ensures cutoffs >= old(cutoffs)
      ensures cutoffs == old(cutoffs) ==> killers == old(killers) && history == old(history)
      ensures nodes >= old(nodes)
      ensures cut ==> best'.Fin? && Le(best', alpha) && best'.v >= ChildValue(moves[i], old(board.turn), depth - 1, true)
      ensures !cut ==> b' == MinE(beta, best') && Lt(alpha, b')
      ensures !cut ==> MinSoFar(moves, old(board.turn), depth - 1, i + 1, beta, best')
    {
      var e := moves[i];
      ghost var t := board.turn;
      ghost var cv := ChildValue(e, t, depth - 1, true);
      var eval := MinChild(depth, e, first, alpha, b);
      MinStep(alpha, beta, best, b, eval, cv);
      cut := Le(MinE(b, Fin(eval)), alpha);
      if cut {
        RecordCutoff(e.move, depth);
      } else {
        MinSoFarStep(moves, t, depth - 1, i, beta, best, eval);
      }
      best' := MinE(best, Fin(eval));
      b' := MinE(b, Fin(eval));
    }

    /** `_search_move`: the earliest move, in the engine's order, whose value is best
        for `color` (largest for Black, smallest for White), the window narrowing as
        better moves are found; `None` exactly when there is no legal move. */
    method SearchMove(depth: nat, color: Color) returns (best: Option<Move>)
      requires Valid() && depth >= 1
      modifies this`nodes, this`killers, this`history, this`cutoffs, board
      ensures Valid()
      ensures board.node == old(board.node) && board.turn == old(board.turn) && board.stack == old(board.stack)
      ensures HistoryGrows(old(history), history)
      ensures best.None? <==> MovesOf(old(board.node), old(board.turn)) == []
      ensures best.Some? ==> EarliestBest(
        OrderMoves(old(board.node).placement, old(killers), old(history), MovesOf(old(board.node), old(board.turn))),
        old(board.turn), depth, color, best.value)
      ensures best.Some? ==> BestAtDepth(old(board.node), old(board.turn), depth, color, best.value)
    {
      ghost var n, t := board.node, board.turn;
      var moves := OrderMoves(board.node.placement, killers, history, board.LegalMoves());
      if color == Black {
        best := SearchBlack(depth, moves);
      } else {
        best := SearchWhite(depth, moves);
      }
      if best.None? {
        best := FirstMove(board.LegalMoves());
      }
      if best.Some? {
        EarliestIsBest(n, t, depth, color, moves, best.value);
      }
    }

    /** One root move of `_search_move`: pushed, its reply searched `depth` plies
        deep with the window, popped. */
    method RootChild(depth: nat, e: Edge, maximizing: bool, alpha: Ext, beta: Ext) returns (score: int)
      requires Valid() && Lt(alpha, beta) && e in board.LegalMoves()
      modifies this`nodes, this`killers, this`history, this`cutoffs, board
      ensures Valid()
      ensures board.node == old(board.node) && board.turn == old(board.turn) && board.stack == old(board.stack)
      ensures HistoryGrows(old(history), history)
      ensures Sound(score, ChildValue(e, old(board.turn), depth, maximizing), alpha, beta)
    {
      board.Push(e);
      score := Minimax(depth, maximizing, alpha, beta);
      var _ := board.Pop();
    }

    /** The Black branch of `_search_move`: alpha rises to each strictly better score. */
    method SearchBlack(depth: nat, moves: seq<Edge>) returns (best: Option<Move>)
      requires Valid() && depth >= 1
      requires multiset(moves) == multiset(board.LegalMoves())
      modifies this`nodes, this`killers, this`history, this`cutoffs, board
      ensures Valid()
      ensures board.node == old(board.node) && board.turn == old(board.turn) && board.stack == old(board.stack)
      ensures HistoryGrows(old(history), history)
      ensures best.None? <==> moves == []
      ensures best.Some? ==> EarliestBest(moves, old(board.turn), depth, Black, best.value)
    {
      ghost var n, t := board.node, board.turn;
      best := None;
      var alpha: Ext := NegInf;
      var beta: Ext := PosInf;
      ghost var k := 0;
      var i := 0;
      while i < |moves|
        invariant 0 <= i <= |moves|
        invariant board.node == n && board.turn == t && board.stack == old(board.stack)
        invariant Valid() && HistoryGrows(old(history), history)
        invariant i == 0 ==> best.None? && alpha == NegInf
        invariant i > 0 ==> (0 <= k < i && best == Some(moves[k].move)
          && alpha == Fin(RootValue(moves[k], t, depth - 1, Black)))
        invariant i > 0 ==> forall j :: 0 <= j < i ==>
          RootValue(moves[j], t, depth - 1, Black) <= RootValue(moves[k], t, depth - 1, Black)
        invariant i > 0 ==> forall j :: 0 <= j < k ==>
          RootValue(moves[j], t, depth - 1, Black) < RootValue(moves[k], t, depth - 1, Black)
      {
        var e := moves[i];
        assert e in multiset(moves);
        var score := RootChild(depth - 1, e, false, alpha, beta);
        if Lt(alpha, Fin(score)) {
          alpha := Fin(score);
          best := Some(e.move);
          k := i;
        }
        i := i + 1;
      }
    }

    /** The White branch of `_search_move`: beta falls to each strictly better score. */
    method SearchWhite(depth: nat, moves: seq<Edge>) returns (best: Option<Move>)
      requires Valid() && depth >= 1
      requires multiset(moves) == multiset(board.LegalMoves())
      modifies this`nodes, this`killers, this`history, this`cutoffs, board
      ensures Valid()
      ensures board.node == old(board.node) && board.turn == old(board.turn) && board.stack == old(board.stack)
      ensures HistoryGrows(old(history), history)
      ensures best.None? <==> moves == []
      ensures best.Some? ==> EarliestBest(moves, old(board.turn), depth, White, best.value)
    {
      ghost var n, t := board.node, board.turn;
      best := None;
      var alpha: Ext := NegInf;
      var beta: Ext := PosInf;
      ghost var k := 0;
      var i := 0;
      while i < |moves|
        invariant 0 <= i <= |moves|
        invariant board.node == n && board.turn == t && board.stack == old(board.stack)
        invariant Valid() && HistoryGrows(old(history), history)
        invariant i == 0 ==> best.None? && beta == PosInf
        invariant i > 0 ==> (0 <= k < i && best == Some(moves[k].move)
          && beta == Fin(RootValue(moves[k], t, depth - 1, White)))
        invariant i > 0 ==> forall j :: 0 <= j < i ==>
          RootValue(moves[j], t, depth - 1, White) >= RootValue(moves[k], t, depth - 1, White)
        invariant i > 0 ==> forall j :: 0 <= j < k ==>
          RootValue(moves[j], t, depth - 1, White) > RootValue(moves[k], t, depth - 1, White)
      {
        var e := moves[i];
        assert e in multiset(moves);
        var score := RootChild(depth - 1, e, true, alpha, beta);
        if Lt(Fin(score), beta) {
          beta := Fin(score);
          best := Some(e.move);
          k := i;
        }
        i := i + 1;
      }
    }

    /** `get_best_move`. With iterative deepening it searches depths 1, 2, ... and
        keeps the move of the last pass that completed; a pass whose depth is in
        `failing` raises and ends the deepening. The tables are not reset. */
    method GetBestMove(depth: nat, color: Color, iterative: bool, failing: set<nat>) returns (best: Option<Move>)
      requires Valid() && (iterative || depth >= 1)
      modifies this`nodes, this`killers, this`history, this`cutoffs, board
      ensures Valid()
      ensures board.node == old(board.node) && board.turn == old(board.turn) && board.stack == old(board.stack)
      ensures HistoryGrows(old(history), history)
      ensures var d := if iterative then LastCompleted(depth, failing) else depth;
        && (d == 0 ==> best.None? && killers == old(killers) && history == old(history) && nodes == old(nodes))
        && (d >= 1 ==> (best.None? <==> MovesOf(old(board.node), old(board.turn)) == []))
        && (d >= 1 && best.Some? ==> BestAtDepth(old(board.node), old(board.turn), d, color, best.value))
    {
      if iterative {
        best := Deepen(depth, color, failing);
      } else {
        best := SearchMove(depth, color);
      }
    }

    /** The iterative-deepening loop of `get_best_move`: depths 1, 2, ... up to
        `depth`, stopping at the first depth in `failing`; the move kept is the one
        of the last pass that completed. */
    method Deepen(depth: nat, color: Color, failing: set<nat>) returns (best: Option<Move>)
      requires Valid()
      modifies this`nodes, this`killers, this`history, this`cutoffs, board
      ensures Valid()
      ensures board.node == old(board.node) && board.turn == old(board.turn) && board.stack == old(board.stack)
      ensures HistoryGrows(old(history), history)
      ensures var d := LastCompleted(depth, failing);
        && (d == 0 ==> best.None? && killers == old(killers) && history == old(history) && nodes == old(nodes))
        && (d >= 1 ==> (best.None? <==> MovesOf(old(board.node), old(board.turn)) == []))
        && (d >= 1 && best.Some? ==> BestAtDepth(old(board.node), old(board.turn), d, color, best.value))
    {
      ghost var n, t := board.node, board.turn;
      best := None;
      if depth == 0 || 1 in failing {
        LastCompletedUnique(depth, failing, 0);
        return;
      }
      var current := 1;
      while current <= depth
        invariant 1 <= current <= depth + 1
        invariant forall d :: 1 <= d < current ==> d !in failing
        invariant board.node == n && board.turn == t && board.stack == old(board.stack)
        invariant Valid() && HistoryGrows(old(history), history)
        invariant current > 1 ==> (best.None? <==> MovesOf(n, t) == [])
        invariant current > 1 && best.Some? ==> BestAtDepth(n, t, current - 1, color, best.value)
      {
        if current in failing {
          break;
        }
        best := SearchMove(current, color);
        current := current + 1;
      }
      LastCompletedUnique(depth, failing, current - 1);
    }
  }

  /** The engine wrapper: the game board, the engine searching it, and the depth. */
  class ChessEngine {
    var board: Board
    const engine: Engine
    var depth: nat

    ghost predicate Valid()
      reads this, engine
    {
      engine.board == board && engine.Valid()
    }

    constructor (start: Node)
      ensures Valid() && fresh(board) && fresh(engine)
      ensures board.start == start && board.node == start && board.turn == White && board.stack == []
      ensures engine.killers == [None, None] && engine.history == map[] && engine.nodes == 0
      ensures depth == 6
    {
      var b := new Board(start);
      board := b;
      engine := new Engine(b);
      depth := 6;
    }

    /** `make_engine_move`: nothing happens once the game is over; otherwise the
        tables and the node counter are cleared, Black's best move is searched with
        iterative deepening and, if there is one, played. */
    method MakeEngineMove(failing: set<nat>) returns (m: Option<Move>)
      requires Valid()
      modifies board, engine`nodes, engine`killers, engine`history, engine`cutoffs
      ensures Valid() && depth == old(depth)
      ensures SideOf(old(board.node), old(board.turn)).gameOver ==>
        && m.None? && board.node == old(board.node) && board.turn == old(board.turn) && board.stack == old(board.stack)
        && engine.killers == old(engine.killers) && engine.history == old(engine.history) && engine.nodes == old(engine.nodes)
      ensures !SideOf(old(board.node), old(board.turn)).gameOver ==>
        var d := LastCompleted(depth, failing);
        && (m.None? <==> d == 0 || MovesOf(old(board.node), old(board.turn)) == [])
        && (d == 0 ==> engine.killers == [None, None] && engine.history == map[] && engine.nodes == 0)
        && (m.None? ==> board.node == old(board.node) && board.turn == old(board.turn) && board.stack == old(board.stack))
        && (m.Some? ==>
              && BestAtDepth(old(board.node), old(board.turn), d, Black, m.value)
              && board.stack == old(board.stack) + [Saved(old(board.node), old(board.turn), m.value)]
              && board.turn == Opp(old(board.turn))
              && exists e :: e in MovesOf(old(board.node), old(board.turn)) && e.move == m.value && board.node == e.child)
    {
      if SideOf(board.node, board.turn).gameOver {
        return None;
      }
      engine.killers := [None, None];
      engine.history := map[];
      engine.nodes := 0;
      m := engine.GetBestMove(depth, Black, true, failing);
      if m.Some? {
        var e := EdgeFor(board.LegalMoves(), m.value);
        if e.Some? {
          board.Push(e.value);
        }
      }
    }

    /** `reset`: a fresh board in the starting position, shared with the engine, and
        empty tables; the node counter is left as it was. */
    method Reset()
      requires Valid()
      modifies this, engine`board, engine`killers, engine`history
      ensures Valid() && fresh(board) && depth == old(depth)
      ensures board.start == old(board.start) && board.node == board.start && board.turn == White && board.stack == []
      ensures engine.killers == [None, None] && engine.history == map[] && engine.nodes == old(engine.nodes)
    {
      board := new Board(board.start);
      engine.board := board;
      engine.killers := [None, None];
      engine.history := map[];
    }
  }
}

/** Move ordering: the score that `move_score` gives a move, and the ordering of
    a move list by that score, highest first. */
module MoveOrdering {
  import opened ChessTypes
  import opened Evaluation
  import opened StableSort

  /** The two killer slots; `None` is an empty slot. */
  type Killers = seq<Option<Move>>

  /** The history table, keyed by (from-square, to-square). */
  type History = map<(int, int), int>

  /** d4, e4, d5 and e5. */
  const CentreSquares: set<int> := {27, 28, 35, 36}

  /** MVV-LVA part: a capture onto an occupied square. An en passant capture lands
      on an empty square and gets nothing. */
  function CaptureBonus(p: Placement, e: Edge): int {
    if e.capture && p[e.move.to].Some? then
      10000 + PieceValue(p[e.move.to].value.kind)
        - (if p[e.move.from].Some? then PieceValue(p[e.move.from].value.kind) else 0)
    else 0
  }

  /** The history part; `//` on a divisor of 10 is Dafny's `/`, both floor. */
  function HistoryBonus(history: History, m: Move): int {
    if (m.from, m.to) in history then history[(m.from, m.to)] / 10 else 0
  }

  function MoveScore(p: Placement, killers: Killers, history: History, e: Edge): int {
    CaptureBonus(p, e)
      + (if e.move.promotion.Some? then 8000 else 0)
      + (if Some(e.move) in killers then 3000 else 0)
      + HistoryBonus(history, e.move)
      + (if e.move.to in CentreSquares then 10 else 0)
  }

  function ScoreKey(p: Placement, killers: Killers, history: History): Edge -> int {
    e => MoveScore(p, killers, history, e)
  }

  /** `_order_moves`: the moves by non-increasing score, ties in generation order. */
  function OrderMoves(p: Placement, killers: Killers, history: History, moves: seq<Edge>): (r: seq<Edge>)
    ensures multiset(r) == multiset(moves)
    ensures SortedDesc(r, ScoreKey(p, killers, history))
    ensures forall k :: WithKey(r, ScoreKey(p, killers, history), k) == WithKey(moves, ScoreKey(p, killers, history), k)
  {
    var key := ScoreKey(p, killers, history);
    SortPermutation(moves, key);
    SortSorted(moves, key);
    forall k
      ensures WithKey(SortDesc(moves, key), key, k) == WithKey(moves, key, k)
    {
      SortStable(moves, key, k);
    }
    SortDesc(moves, key)
  }

  /** While no history entry has reached 60000, a capture onto an occupied square is
      ordered ahead of any quiet move that is not a promotion: 10000 less the
      attacker's value is more than the killer, history and centre parts together. */
  lemma CaptureBeforeQuiet(p: Placement, killers: Killers, history: History, c: Edge, q: Edge)
    requires forall key :: key in history ==> 0 <= history[key] < 60000
    requires c.capture && p[c.move.to].Some?
    requires !q.capture && q.move.promotion.None?
    ensures MoveScore(p, killers, history, c) > MoveScore(p, killers, history, q)
  {
    assert HistoryBonus(history, c.move) >= 0;
    assert HistoryBonus(history, q.move) < 6000;
  }
}

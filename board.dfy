/** The mutable board object that the engine and the viewer share: the current
    position, the side to move, and the stack of positions saved by `Push`.
    It stands for the rules library's board; only the operations the core calls
    are given, and they do what that library does. */
module BoardState {
  import opened ChessTypes

  /** What `Push` saves so that `Pop` can restore it. */
  datatype Saved = Saved(node: Node, turn: Color, move: Move)

  /** The first legal move equal to `m`: the edge `push` follows for that move. */
  function EdgeFor(moves: seq<Edge>, m: Move): (r: Option<Edge>)
    ensures r.Some? ==> r.value in moves && r.value.move == m
    ensures r.None? ==> forall e :: e in moves ==> e.move != m
  {
    if moves == [] then None
    else if moves[0].move == m then Some(moves[0])
    else EdgeFor(moves[1..], m)
  }

  class Board {
    var node: Node
    var turn: Color
    var stack: seq<Saved>
    /** The standard starting position that `Reset` returns to. */
    const start: Node

    constructor (start: Node)
      ensures this.start == start
      ensures node == start && turn == White && stack == []
    {
      this.start := start;
      node := start;
      turn := White;
      stack := [];
    }

    function LegalMoves(): seq<Edge>
      reads this
    {
      MovesOf(node, turn)
    }

    function PieceAt(sq: Square): Option<Piece>
      reads this
    {
      node.placement[sq]
    }

    /** Plays a legal move: the turn passes to the other colour. */
    method Push(e: Edge)
      requires e in LegalMoves()
      modifies this
      ensures stack == old(stack) + [Saved(old(node), old(turn), e.move)]
      ensures node == e.child && turn == Opp(old(turn))
    {
      stack := stack + [Saved(node, turn, e.move)];
      node := e.child;
      turn := Opp(turn);
    }

    /** Takes back the last move, restoring the position and the turn saved with it. */
    method Pop() returns (m: Move)
      requires |stack| > 0
      modifies this
      ensures stack == old(stack)[..|old(stack)| - 1]
      ensures node == old(stack)[|old(stack)| - 1].node
      ensures turn == old(stack)[|old(stack)| - 1].turn
      ensures m == old(stack)[|old(stack)| - 1].move
    {
      var top := stack[|stack| - 1];
      stack := stack[..|stack| - 1];
      node, turn, m := top.node, top.turn, top.move;
    }

    method Reset()
      modifies this
      ensures node == start && turn == White && stack == []
    {
      node := start;
      turn := White;
      stack := [];
    }
  }
}

/** Values shared by the evaluator, the search and the viewer: colours, pieces,
    squares, moves, and the position oracle.

    The rules of chess (move generation, check, mate, stalemate, insufficient
    material, game over) are not modelled: they are an oracle. A `Node` is one
    position with everything the rules engine would report about it, for either
    colour to move, and for every legal move the position it leads to. The side to
    move is not part of a node; the board state is a node plus a turn (see
    `BoardState.Board`), because the evaluator overwrites the turn in place. */
module ChessTypes {

  datatype Option<T> = None | Some(value: T)

  datatype Color = White | Black

  function Opp(c: Color): Color {
    if c == White then Black else White
  }

  datatype Kind = Pawn | Knight | Bishop | Rook | Queen | King

  datatype Piece = Piece(color: Color, kind: Kind)

  /** Square index a1 = 0, b1 = 1, ..., h8 = 63. */
  type Square = x: int | 0 <= x < 64

  function File(sq: Square): int { sq % 8 }

  function Rank(sq: Square): int { sq / 8 }

  /** The 64 squares, each empty or holding a piece. */
  type Placement = s: seq<Option<Piece>> | |s| == 64 witness EmptyPlacement()

  function EmptyPlacement(): seq<Option<Piece>> {
    seq(64, i => None)
  }

  datatype Move = Move(from: Square, to: Square, promotion: Option<Kind>)

  /** What the rules engine reports about a position when one colour is to move. */
  datatype Side = Side(
    moves: seq<Edge>,      // legal moves in generation order
    checkmate: bool,
    stalemate: bool,
    inCheck: bool,         // the mover's king is attacked
    gameOver: bool)

  /** A legal move, whether the rules engine calls it a capture, and the position
      it leads to (the opponent is then to move). */
  datatype Edge = Edge(move: Move, capture: bool, child: Node)

  datatype Node = Node(
    placement: Placement,
    white: Side,
    black: Side,
    insufficient: bool)

  function SideOf(n: Node, c: Color): Side {
    if c == White then n.white else n.black
  }

  /** What a rules engine reports consistently about one colour to move: it has no
      legal move exactly when it is checkmated or stalemated, checkmate comes with
      check and stalemate without, and either ends the game. */
  predicate SideConsistent(s: Side) {
    && (s.moves == [] <==> (s.checkmate || s.stalemate))
    && (s.checkmate ==> s.inCheck)
    && (s.stalemate ==> !s.inCheck)
    && (s.checkmate || s.stalemate ==> s.gameOver)
  }

  /** Every position of the tree is reported consistently for both colours, and
      insufficient material ends the game whichever colour is to move. */
  predicate Consistent(n: Node)
    decreases n
  {
    && SideConsistent(n.white) && SideConsistent(n.black)
    && (n.insufficient ==> n.white.gameOver && n.black.gameOver)
    && (forall e :: e in n.white.moves ==> Consistent(e.child))
    && (forall e :: e in n.black.moves ==> Consistent(e.child))
  }

  /** The legal moves of the position `n` with `c` to move. */
  function MovesOf(n: Node, c: Color): seq<Edge> {
    SideOf(n, c).moves
  }
}

/** The board viewer: conversion between mouse pixels and squares (with the board
    optionally flipped), the placement of the promotion overlay, the piece glyphs,
    and the selection state that key presses and clicks update. */
module Viewer {
  import opened ChessTypes
  import opened BoardState
  import opened SearchSpec
  import opened SearchEngine

  const TileSize := 80
  const BoardSize := TileSize * 8
  const StatusBarH := 36
  const OverlayWidth := TileSize * 2
  const OverlayHeight := StatusBarH * 2

  function Max(a: int, b: int): int { if a < b then b else a }

  function Min(a: int, b: int): int { if b < a then b else a }

  // ------------------------------------------------------------ coordinates

  /** `square_at`: the square under a mouse position; `None` for the status bar.
      Python's `//` with a positive divisor is Dafny's `/`. */
  function SquareAt(mx: int, my: int, flipped: bool): (r: Option<int>)
    ensures r.None? <==> my >= BoardSize
    ensures 0 <= mx < BoardSize && 0 <= my < BoardSize ==> r.Some? && 0 <= r.value < 64
  {
    if my >= BoardSize then None
    else
      var file := mx / TileSize;
      var rank := my / TileSize;
      var f := if flipped then 7 - file else file;
      var rk := if flipped then 7 - rank else rank;
      Some((7 - rk) * 8 + f)
  }

  /** `sq_to_xy`: the top-left pixel of a square's tile. */
  function SqToXY(sq: Square, flipped: bool): (r: (int, int))
    ensures r.0 % TileSize == 0 && r.1 % TileSize == 0
    ensures 0 <= r.0 <= 7 * TileSize && 0 <= r.1 <= 7 * TileSize
  {
    var displayRank := 7 - Rank(sq);
    var displayFile := File(sq);
    var dr := if flipped then 7 - displayRank else displayRank;
    var df := if flipped then 7 - displayFile else displayFile;
    (df * TileSize, dr * TileSize)
  }

  lemma TileDiv(k: int, d: int)
    requires 0 <= d < TileSize
    ensures (k * TileSize + d) / TileSize == k
  {
  }

  /** Every pixel of a square's tile maps back to that square. */
  lemma TileMapsBack(sq: Square, flipped: bool, dx: int, dy: int)
    requires 0 <= dx < TileSize && 0 <= dy < TileSize
    ensures SquareAt(SqToXY(sq, flipped).0 + dx, SqToXY(sq, flipped).1 + dy, flipped) == Some(sq)
  {
    var displayRank := 7 - Rank(sq);
    var displayFile := File(sq);
    var dr := if flipped then 7 - displayRank else displayRank;
    var df := if flipped then 7 - displayFile else displayFile;
    assert SqToXY(sq, flipped) == (df * TileSize, dr * TileSize);
    TileDiv(df, dx);
    TileDiv(dr, dy);
  }

  /** Conversely, a pixel on the board lies in the tile of the square it maps to. */
  lemma PixelInItsTile(mx: int, my: int, flipped: bool)
    requires 0 <= mx < BoardSize && 0 <= my < BoardSize
    ensures var sq := SquareAt(mx, my, flipped).value;
      var xy := SqToXY(sq, flipped);
      xy.0 <= mx < xy.0 + TileSize && xy.1 <= my < xy.1 + TileSize
  {
    var file := mx / TileSize;
    var rank := my / TileSize;
    var f := if flipped then 7 - file else file;
    var rk := if flipped then 7 - rank else rank;
    var sq: Square := (7 - rk) * 8 + f;
    assert File(sq) == f && Rank(sq) == 7 - rk;
  }

  /** Flipping turns the board half a turn. */
  lemma FlipMirrorsTile(sq: Square)
    ensures SqToXY(sq, true).0 == 7 * TileSize - SqToXY(sq, false).0
    ensures SqToXY(sq, true).1 == 7 * TileSize - SqToXY(sq, false).1
  {
  }

  /** The clamp in `promotion_choice`: the overlay centred on the tile at (x, y),
      pushed back inside the board. */
  function OverlayOrigin(x: int, y: int): (r: (int, int))
    ensures 0 <= r.0 <= BoardSize - OverlayWidth
    ensures 0 <= r.1 <= BoardSize - OverlayHeight
  {
    (Max(0, Min(BoardSize - OverlayWidth, x + TileSize / 2 - OverlayWidth / 2)),
     Max(0, Min(BoardSize - OverlayHeight, y + TileSize / 2 - OverlayHeight / 2)))
  }

  /** Wherever the destination square is, the overlay covers its centre. */
  lemma OverlayCoversTileCentre(sq: Square, flipped: bool)
    ensures var xy := SqToXY(sq, flipped);
      var o := OverlayOrigin(xy.0, xy.1);
      && o.0 <= xy.0 + TileSize / 2 <= o.0 + OverlayWidth
      && o.1 <= xy.1 + TileSize / 2 <= o.1 + OverlayHeight
  {
  }

  // ----------------------------------------------------------------- glyphs

  function KindLetter(k: Kind): char {
    match k
    case Pawn => 'P'
    case Knight => 'N'
    case Bishop => 'B'
    case Rook => 'R'
    case Queen => 'Q'
    case King => 'K'
  }

  function WhiteGlyph(k: Kind): char {
    match k
    case Pawn => '\U{2659}'
    case Knight => '\U{2658}'
    case Bishop => '\U{2657}'
    case Rook => '\U{2656}'
    case Queen => '\U{2655}'
    case King => '\U{2654}'
  }

  function BlackGlyph(k: Kind): char {
    match k
    case Pawn => '\U{265F}'
    case Knight => '\U{265E}'
    case Bishop => '\U{265D}'
    case Rook => '\U{265C}'
    case Queen => '\U{265B}'
    case King => '\U{265A}'
  }

  function Lower(c: char): char
    requires 'A' <= c <= 'Z'
  {
    (c as int + 32) as char
  }

  /** `piece_to_unicode`: the chess glyph, or without a suitable font the letter,
      upper case for White and lower case for Black; nothing for an empty square. */
  function PieceToUnicode(piece: Option<Piece>, fontsOk: bool): (r: string)
    ensures piece.None? <==> r == ""
    ensures piece.Some? ==> |r| == 1
    ensures piece.Some? && !fontsOk ==>
      if piece.value.color == White then 'A' <= r[0] <= 'Z' else 'a' <= r[0] <= 'z'
  {
    if piece.None? then ""
    else
      var p := piece.value;
      if fontsOk then
        if p.color == White then [WhiteGlyph(p.kind)] else [BlackGlyph(p.kind)]
      else
        if p.color == White then [KindLetter(p.kind)] else [Lower(KindLetter(p.kind))]
  }

  /** Different pieces are drawn differently, with either font. */
  lemma GlyphsDistinct(a: Piece, b: Piece, fontsOk: bool)
    requires a != b
    ensures PieceToUnicode(Some(a), fontsOk) != PieceToUnicode(Some(b), fontsOk)
  {
    if a.color == b.color {
      assert a.kind != b.kind;
    }
  }

  // ------------------------------------------------------------- selection

  predicate OwnPiece(p: Placement, turn: Color, sq: Square) {
    p[sq].Some? && p[sq].value.color == turn
  }

  /** The highlighted squares: the destinations of the legal moves from `sq`, in
      generation order (a promoting pawn's square once per promotion piece). */
  function TargetsFrom(moves: seq<Edge>, sq: Square): (r: seq<Square>)
    ensures forall t :: t in r <==> exists e :: e in moves && e.move.from == sq && e.move.to == t
    ensures |r| <= |moves|
  {
    if moves == [] then []
    else
      var rest := TargetsFrom(moves[1..], sq);
      assert forall e :: e in moves[1..] ==> e in moves;
      assert forall e :: e in moves ==> e == moves[0] || e in moves[1..];
      (if moves[0].move.from == sq then [moves[0].move.to] else []) + rest
  }

  predicate IsLegal(moves: seq<Edge>, m: Move) {
    exists e :: e in moves && e.move == m
  }

  /** The click handler's promotion test: a pawn of the side to move going from the
      seventh rank to the eighth (White) or from the second to the first (Black). */
  predicate PromotionClick(p: Placement, turn: Color, from: Square, to: Square) {
    && p[from].Some? && p[from].value.kind == Pawn
    && ((Rank(from) == 6 && Rank(to) == 7 && turn == White)
        || (Rank(from) == 1 && Rank(to) == 0 && turn == Black))
  }

  /** The rule of chess that the rules engine follows: a pawn move to the last rank
      is always a promotion. */
  predicate PromotionsExplicit(n: Node, t: Color) {
    forall e :: e in MovesOf(n, t)
      && n.placement[e.move.from].Some? && n.placement[e.move.from].value.kind == Pawn
      && (Rank(e.move.to) == 7 || Rank(e.move.to) == 0)
      ==> e.move.promotion.Some?
  }

  /** The move a second click tries, as the source writes it: the promotion overlay
      is offered only when the move without a promotion is legal. */
  function ClickMoveAsWritten(n: Node, t: Color, from: Square, to: Square, choice: Option<Kind>): Move {
    var plain := Move(from, to, None);
    if PromotionClick(n.placement, t, from, to) && IsLegal(MovesOf(n, t), plain) && choice.Some?
    then Move(from, to, choice)
    else plain
  }

  /** As written, a promotion can never be played by clicking: the test above is
      never met, and the move tried, having no promotion, is not legal. */
  lemma ClickNeverPromotes(n: Node, t: Color, from: Square, to: Square, choice: Option<Kind>)
    requires PromotionsExplicit(n, t) && PromotionClick(n.placement, t, from, to)
    ensures ClickMoveAsWritten(n, t, from, to, choice) == Move(from, to, None)
    ensures !IsLegal(MovesOf(n, t), ClickMoveAsWritten(n, t, from, to, choice))
  {
    forall e | e in MovesOf(n, t) && e.move.from == from && e.move.to == to
      ensures e.move.promotion.Some?
    {
    }
  }

  /** The move a second click tries, with the overlay offered when promoting (to a
      queen) is legal. */
  function ClickMove(n: Node, t: Color, from: Square, to: Square, choice: Option<Kind>): Move {
    var plain := Move(from, to, None);
    if PromotionClick(n.placement, t, from, to) && IsLegal(MovesOf(n, t), Move(from, to, Some(Queen))) && choice.Some?
    then Move(from, to, choice)
    else plain
  }

  /** With the corrected test, choosing a legal promotion in the overlay plays it,
      and any other second click tries the plain move. */
  lemma ClickPromotes(n: Node, t: Color, from: Square, to: Square, choice: Option<Kind>)
    ensures PromotionClick(n.placement, t, from, to) && choice.Some?
      && IsLegal(MovesOf(n, t), Move(from, to, Some(Queen))) && IsLegal(MovesOf(n, t), Move(from, to, choice))
      ==> IsLegal(MovesOf(n, t), ClickMove(n, t, from, to, choice)) && ClickMove(n, t, from, to, choice).promotion == choice
    ensures !PromotionClick(n.placement, t, from, to) || choice.None? ==> ClickMove(n, t, from, to, choice) == Move(from, to, None)
  {
  }

  /** The viewer's globals: the board, the engine that plays Black on it, the
      selected square and its targets, the last move played and whether the board
      is drawn flipped. */
  class ViewerState {
    const board: Board
    const engine: Engine
    var selected: Option<Square>
    var targets: seq<Square>
    var lastMove: Option<Move>
    var flipped: bool

    /** A selection is a piece of the side to move, highlighted with its targets. */
    ghost predicate Valid()
      reads this, board, engine
    {
      && engine.board == board && engine.Valid()
      && (selected.None? ==> targets == [])
      && (selected.Some? ==>
            OwnPiece(board.node.placement, board.turn, selected.value)
            && targets == TargetsFrom(board.LegalMoves(), selected.value))
    }

    constructor (board: Board)
      ensures Valid() && this.board == board && fresh(engine)
      ensures engine.killers == [None, None] && engine.history == map[] && engine.nodes == 0
      ensures selected.None? && targets == [] && lastMove.None? && !flipped
    {
      this.board := board;
      engine := new Engine(board);
      selected := None;
      targets := [];
      lastMove := None;
      flipped := false;
    }

    method Select(sq: Square)
      requires engine.board == board && engine.Valid()
      requires OwnPiece(board.node.placement, board.turn, sq)
      modifies this`selected, this`targets
      ensures Valid() && selected == Some(sq)
    {
      selected := Some(sq);
      targets := TargetsFrom(board.LegalMoves(), sq);
    }

    /** A left click at (mx, my); `choice` is what the promotion overlay would
        return if it were shown. */
    method Click(mx: int, my: int, choice: Option<Kind>)
      requires Valid()
      requires 0 <= mx < BoardSize && 0 <= my < BoardSize + StatusBarH
      requires choice.None? || choice.value in {Queen, Rook, Bishop, Knight}
      modifies this, board
      ensures Valid() && flipped == old(flipped)
      ensures SquareAt(mx, my, flipped).None? ==> unchanged(this, board)
      ensures SquareAt(mx, my, flipped).Some? && old(selected).None? ==>
        var sq := SquareAt(mx, my, flipped).value;
        && unchanged(board) && lastMove == old(lastMove)
        && selected == if OwnPiece(board.node.placement, board.turn, sq) then Some(sq) else None
      ensures SquareAt(mx, my, flipped).Some? && old(selected).Some? ==>
        var sq := SquareAt(mx, my, flipped).value;
        var m := ClickMove(old(board.node), old(board.turn), old(selected).value, sq, choice);
        var e := EdgeFor(MovesOf(old(board.node), old(board.turn)), m);
        if e.Some? then
          && board.node == e.value.child && board.turn == Opp(old(board.turn))
          && board.stack == old(board.stack) + [Saved(old(board.node), old(board.turn), m)]
          && lastMove == Some(m) && selected.None?
        else
          && unchanged(board) && lastMove == old(lastMove)
          && selected == if OwnPiece(board.node.placement, board.turn, sq) then Some(sq) else None
    {
      var clicked := SquareAt(mx, my, flipped);
      if clicked.None? {
        return;
      }
      var sq: Square := clicked.value;
      if selected.None? {
        var piece := board.PieceAt(sq);
        if piece.Some? && piece.value.color == board.turn {
          Select(sq);
        }
      } else {
        var move := ClickMove(board.node, board.turn, selected.value, sq, choice);
        var e := EdgeFor(board.LegalMoves(), move);
        if e.Some? {
          board.Push(e.value);
          lastMove := Some(move);
          selected := None;
          targets := [];
        } else {
          var piece := board.PieceAt(sq);
          if piece.Some? && piece.value.color == board.turn {
            Select(sq);
          } else {
            selected := None;
            targets := [];
          }
        }
      }
    }

    /** The `u` key: takes back the last move, which becomes the highlighted one,
        and clears the selection; with no move played nothing changes. */
    method Undo()
      requires Valid()
      modifies this, board
      ensures Valid() && flipped == old(flipped)
      ensures old(board.stack) == [] ==> unchanged(this, board)
      ensures old(board.stack) != [] ==>
        var top := old(board.stack)[|old(board.stack)| - 1];
        && board.node == top.node && board.turn == top.turn
        && board.stack == old(board.stack)[..|old(board.stack)| - 1]
        && lastMove == Some(top.move) && selected.None?
    {
      if |board.stack| > 0 {
        var m := board.Pop();
        lastMove := Some(m);
        selected := None;
        targets := [];
      }
    }

    /** The `r` key: the starting position, no last move, no selection. */
    method ResetKey()
      requires Valid()
      modifies this, board
      ensures Valid() && flipped == old(flipped)
      ensures board.node == board.start && board.turn == White && board.stack == []
      ensures lastMove.None? && selected.None?
    {
      board.Reset();
      lastMove := None;
      selected := None;
      targets := [];
    }

    /** The engine's turn at the end of a frame: with Black to move, a four-ply
        iterative-deepening search for Black, whose move, if any, is played and
        highlighted; a pass whose depth is in `failing` raises and ends the
        deepening. With White to move nothing happens. */
    method EngineReply(failing: set<nat>) returns (m: Option<Move>)
      requires Valid()
      modifies this, board, engine`nodes, engine`killers, engine`history, engine`cutoffs
      ensures Valid() && flipped == old(flipped)
      ensures old(board.turn) == White ==>
        && m.None? && unchanged(this, board)
        && engine.killers == old(engine.killers) && engine.history == old(engine.history)
      ensures old(board.turn) == Black ==>
        var d := LastCompleted(4, failing);
        && (m.None? <==> d == 0 || MovesOf(old(board.node), Black) == [])
        && (m.None? ==> unchanged(this) && unchanged(board`node, board`turn, board`stack))
        && (m.Some? ==>
              && BestAtDepth(old(board.node), Black, d, Black, m.value)
              && board.stack == old(board.stack) + [Saved(old(board.node), Black, m.value)]
              && board.turn == White && lastMove == m && selected.None?
              && exists e :: e in MovesOf(old(board.node), Black) && e.move == m.value && board.node == e.child)
    {
      m := None;
      if board.turn == Black {
        m := engine.GetBestMove(4, Black, true, failing);
        if m.Some? {
          var e := EdgeFor(board.LegalMoves(), m.value);
          if e.Some? {
            board.Push(e.value);
            lastMove := m;
            selected := None;
            targets := [];
          }
        }
      }
    }

    /** The `f` key: only the drawing orientation changes. */
    method Flip()
      requires Valid()
      modifies this`flipped
      ensures Valid() && flipped == !old(flipped)
    {
      flipped := !flipped;
    }
  }
}

/** Static evaluation of a position in centipawns, from White's point of view:
    material, piece-square tables, mobility, pawn structure and king safety, with
    checkmate, stalemate and insufficient material overriding the sum.

    Each term that the evaluator accumulates in a loop is a method here, proved
    against a function that states the term over the 64 squares; the lemmas
    after each term state what the term does under a change of colours. */
module Evaluation {
  import opened ChessTypes
  import opened BoardState

  const MateScore := 99999

  function PieceValue(k: Kind): int {
    match k
    case Pawn => 100
    case Knight => 320
    case Bishop => 330
    case Rook => 500
    case Queen => 900
    case King => 0
  }

  // Piece-square tables, indexed by square (a1 = 0). A white piece reads its
  // table at its own square, a black piece reads the flipped table.

  const PawnTable: seq<int> := [
      0,   0,   0,   0,   0,   0,   0,   0,
     50,  50,  50,  50,  50,  50,  50,  50,
     10,  10,  20,  30,  30,  20,  10,  10,
      5,   5,  10,  25,  25,  10,   5,   5,
      0,   0,   0,  20,  20,   0,   0,   0,
      5,  -5, -10,   0,   0, -10,  -5,   5,
      5,  10,  10, -20, -20,  10,  10,   5,
      0,   0,   0,   0,   0,   0,   0,   0]

  const KnightTable: seq<int> := [
    -50, -40, -30, -30, -30, -30, -40, -50,
    -40, -20,   0,   0,   0,   0, -20, -40,
    -30,   0,  10,  15,  15,  10,   0, -30,
    -30,   5,  15,  20,  20,  15,   5, -30,
    -30,   0,  15,  20,  20,  15,   0, -30,
    -30,   5,  10,  15,  15,  10,   5, -30,
    -40, -20,   0,   5,   5,   0, -20, -40,
    -50, -40, -30, -30, -30, -30, -40, -50]

  const BishopTable: seq<int> := [
    -20, -10, -10, -10, -10, -10, -10, -20,
    -10,   0,   0,   0,   0,   0,   0, -10,
    -10,   0,   5,  10,  10,   5,   0, -10,
    -10,   5,   5,  10,  10,   5,   5, -10,
    -10,   0,  10,  10,  10,  10,   0, -10,
    -10,  10,  10,  10,  10,  10,  10, -10,
    -10,   5,   0,   0,   0,   0,   5, -10,
    -20, -10, -10, -10, -10, -10, -10, -20]

  const RookTable: seq<int> := [
      0,   0,   0,   0,   0,   0,   0,   0,
      5,  10,  10,  10,  10,  10,  10,   5,
     -5,   0,   0,   0,   0,   0,   0,  -5,
     -5,   0,   0,   0,   0,   0,   0,  -5,
     -5,   0,   0,   0,   0,   0,   0,  -5,
     -5,   0,   0,   0,   0,   0,   0,  -5,
     -5,   0,   0,   0,   0,   0,   0,  -5,
      0,   0,   0,   5,   5,   0,   0,   0]

  const QueenTable: seq<int> := [
    -20, -10, -10,  -5,  -5, -10, -10, -20,
    -10,   0,   0,   0,   0,   0,   0, -10,
    -10,   0,   5,   5,   5,   5,   0, -10,
     -5,   0,   5,   5,   5,   5,   0,  -5,
      0,   0,   5,   5,   5,   5,   0,  -5,
    -10,   5,   5,   5,   5,   5,   0, -10,
    -10,   0,   5,   0,   0,   0,   0, -10,
    -20, -10, -10,  -5,  -5, -10, -10, -20]

  const KingTableMiddle: seq<int> := [
    -30, -40, -40, -50, -50, -40, -40, -30,
    -30, -40, -40, -50, -50, -40, -40, -30,
    -30, -40, -40, -50, -50, -40, -40, -30,
    -30, -40, -40, -50, -50, -40, -40, -30,
    -20, -30, -30, -40, -40, -30, -30, -20,
    -10, -20, -20, -20, -20, -20, -20, -10,
     20,  20,   0,   0,   0,   0,  20,  20,
     20,  30,  10,   0,   0,  10,  30,  20]

  const KingTableEnd: seq<int> := [
    -50, -40, -30, -20, -20, -30, -40, -50,
    -30, -20, -10,   0,   0, -10, -20, -30,
    -30, -10,  20,  30,  30,  20, -10, -30,
    -30, -10,  30,  40,  40,  30, -10, -30,
    -30, -10,  30,  40,  40,  30, -10, -30,
    -30, -10,  20,  30,  30,  20, -10, -30,
    -30, -30,   0,   0,   0,   0, -30, -30,
    -50, -30, -30, -30, -30, -30, -30, -50]

  /** The table read for a black piece: entry `i` is the original entry `63 - i`. */
  function FlipTable(t: seq<int>): (r: seq<int>)
    requires |t| == 64
    ensures |r| == 64
    ensures forall i :: 0 <= i < 64 ==> r[i] == t[63 - i]
  {
    seq(64, i requires 0 <= i < 64 => t[63 - i])
  }

  lemma FlipTableInvolution(t: seq<int>)
    requires |t| == 64
    ensures FlipTable(FlipTable(t)) == t
  {
    var f := FlipTable(t);
    assert forall i :: 0 <= i < 64 ==> FlipTable(f)[i] == t[i];
  }

  // ---------------------------------------------------------------- counting

  function CountPiece(s: seq<Option<Piece>>, x: Piece): nat
  {
    if s == [] then 0
    else CountPiece(s[..|s| - 1], x) + (if s[|s| - 1] == Some(x) then 1 else 0)
  }

  function CountBoth(p: Placement, k: Kind): nat {
    CountPiece(p, Piece(White, k)) + CountPiece(p, Piece(Black, k))
  }

  /** No queen is left and at most two rooks are. */
  predicate IsEndgame(p: Placement) {
    CountBoth(p, Queen) == 0 && CountBoth(p, Rook) <= 2
  }

  function TableOf(k: Kind, endgame: bool): (t: seq<int>)
    ensures |t| == 64
  {
    match k
    case Pawn => PawnTable
    case Knight => KnightTable
    case Bishop => BishopTable
    case Rook => RookTable
    case Queen => QueenTable
    case King => if endgame then KingTableEnd else KingTableMiddle
  }

  function PieceSquareValue(piece: Piece, sq: Square, endgame: bool): int {
    var table := TableOf(piece.kind, endgame);
    if piece.color == Black then FlipTable(table)[sq] else table[sq]
  }

  /** A white piece reads its table at its square, a black one at the mirrored
      square; the king's table is the endgame one exactly when `IsEndgame`. */
  lemma PieceSquareLookup(p: Placement, piece: Piece, sq: Square)
    ensures piece.color == White ==>
      PieceSquareValue(piece, sq, IsEndgame(p)) == TableOf(piece.kind, IsEndgame(p))[sq]
    ensures piece.color == Black ==>
      PieceSquareValue(piece, sq, IsEndgame(p)) == TableOf(piece.kind, IsEndgame(p))[63 - sq]
    ensures piece.kind == King ==>
      TableOf(King, IsEndgame(p)) ==
        (if CountBoth(p, Queen) == 0 && CountBoth(p, Rook) <= 2 then KingTableEnd else KingTableMiddle)
  {
  }

  // ---------------------------------------------------------- colour changes

  function SwapColor(x: Option<Piece>): Option<Piece> {
    match x
    case None => None
    case Some(pc) => Some(Piece(Opp(pc.color), pc.kind))
  }

  function SwapAll(s: seq<Option<Piece>>): (r: seq<Option<Piece>>)
    ensures |r| == |s|
  {
    seq(|s|, i requires 0 <= i < |s| => SwapColor(s[i]))
  }

  /** Every piece changes colour, nothing moves. */
  function SwapColours(p: Placement): Placement {
    SwapAll(p)
  }

  /** Every piece changes colour and moves to the point-mirrored square. */
  function Mirror(p: Placement): Placement {
    seq(64, i requires 0 <= i < 64 => SwapColor(p[63 - i]))
  }

  /** Kings removed, everything else in place. */
  function WithoutKings(p: Placement): Placement {
    seq(64, i requires 0 <= i < 64 => if p[i].Some? && p[i].value.kind == King then None else p[i])
  }

  lemma {:induction false} CountSwap(s: seq<Option<Piece>>, x: Piece)
    ensures CountPiece(SwapAll(s), x) == CountPiece(s, Piece(Opp(x.color), x.kind))
    decreases |s|
  {
    if s != [] {
      assert SwapAll(s)[..|s| - 1] == SwapAll(s[..|s| - 1]);
      CountSwap(s[..|s| - 1], x);
    }
  }

  lemma {:induction false} CountDropKings(s: seq<Option<Piece>>, t: seq<Option<Piece>>, x: Piece)
    requires |s| == |t| && x.kind != King
    requires forall i :: 0 <= i < |s| ==>
      t[i] == (if s[i].Some? && s[i].value.kind == King then None else s[i])
    ensures CountPiece(s, x) == CountPiece(t, x)
    decreases |s|
  {
    if s != [] {
      CountDropKings(s[..|s| - 1], t[..|t| - 1], x);
    }
  }

  // ---------------------------------------------------------------- material

  const MaterialKinds: seq<Kind> := [Pawn, Knight, Bishop, Rook, Queen]

  function MaterialTerm(p: Placement, k: Kind): int {
    (CountPiece(p, Piece(White, k)) - CountPiece(p, Piece(Black, k))) * PieceValue(k)
  }

  function MaterialOver(p: Placement, ks: seq<Kind>): int {
    if ks == [] then 0 else MaterialOver(p, ks[..|ks| - 1]) + MaterialTerm(p, ks[|ks| - 1])
  }

  /** Sum over pawns, knights, bishops, rooks and queens of
      (white count - black count) * value. */
  function Material(p: Placement): int {
    MaterialOver(p, MaterialKinds)
  }

  method EvaluateMaterial(board: Board) returns (score: int)
    ensures score == Material(board.node.placement)
  {
    var p := board.node.placement;
    score := 0;
    for i := 0 to |MaterialKinds|
      invariant score == MaterialOver(p, MaterialKinds[..i])
    {
      var k := MaterialKinds[i];
      var whiteCount := CountPiece(p, Piece(White, k));
      var blackCount := CountPiece(p, Piece(Black, k));
      score := score + (whiteCount - blackCount) * PieceValue(k);
      assert MaterialKinds[..i + 1][..i] == MaterialKinds[..i];
    }
    assert MaterialKinds[..|MaterialKinds|] == MaterialKinds;
  }

  lemma {:induction false} MaterialOverSwap(p: Placement, ks: seq<Kind>)
    ensures MaterialOver(SwapColours(p), ks) == -MaterialOver(p, ks)
    decreases |ks|
  {
    if ks != [] {
      MaterialOverSwap(p, ks[..|ks| - 1]);
      MaterialTermSwap(p, ks[|ks| - 1]);
    }
  }

  lemma MaterialTermSwap(p: Placement, k: Kind)
    ensures MaterialTerm(SwapColours(p), k) == -MaterialTerm(p, k)
  {
    CountSwap(p, Piece(White, k));
    CountSwap(p, Piece(Black, k));
    var w, b := CountPiece(p, Piece(White, k)), CountPiece(p, Piece(Black, k));
    assert (b - w) * PieceValue(k) == -((w - b) * PieceValue(k));
  }

  /** Swapping the colours of all pieces negates the material balance. */
  lemma MaterialSwapNegates(p: Placement)
    ensures Material(SwapColours(p)) == -Material(p)
  {
    MaterialOverSwap(p, MaterialKinds);
  }

  lemma {:induction false} MaterialOverKings(p: Placement, ks: seq<Kind>)
    requires forall i :: 0 <= i < |ks| ==> ks[i] != King
    ensures MaterialOver(WithoutKings(p), ks) == MaterialOver(p, ks)
    decreases |ks|
  {
    if ks != [] {
      MaterialOverKings(p, ks[..|ks| - 1]);
      var k := ks[|ks| - 1];
      CountDropKings(p, WithoutKings(p), Piece(White, k));
      CountDropKings(p, WithoutKings(p), Piece(Black, k));
    }
  }

  /** Kings contribute nothing to the material balance. */
  lemma MaterialIgnoresKings(p: Placement)
    ensures Material(WithoutKings(p)) == Material(p)
  {
    MaterialOverKings(p, MaterialKinds);
  }

  // ------------------------------------------------------ piece-square tables

  function SquareValue(p: Placement, sq: Square, endgame: bool): int {
    match p[sq]
    case None => 0
    case Some(pc) => PieceSquareValue(pc, sq, endgame)
  }

  function PositionUpTo(p: Placement, endgame: bool, k: nat): int
    requires k <= 64
  {
    if k == 0 then 0 else PositionUpTo(p, endgame, k - 1) + SquareValue(p, k - 1, endgame)
  }

  /** The table value of every occupied square, added with the same sign for both
      colours. */
  function PositionScore(p: Placement, endgame: bool): int {
    PositionUpTo(p, endgame, 64)
  }

  method EvaluatePosition(board: Board, endgame: bool) returns (score: int)
    ensures score == PositionScore(board.node.placement, endgame)
  {
    var p := board.node.placement;
    score := 0;
    for sq := 0 to 64
      invariant score == PositionUpTo(p, endgame, sq)
    {
      var piece := p[sq];
      if piece.Some? {
        score := score + PieceSquareValue(piece.value, sq, endgame);
      }
    }
  }

  lemma MirrorSquareValue(p: Placement, sq: Square, endgame: bool)
    ensures SquareValue(Mirror(p), sq, endgame) == SquareValue(p, 63 - sq, endgame)
  {
  }

  lemma {:induction false} PositionMirrorUpTo(p: Placement, endgame: bool, k: nat)
    requires k <= 64
    ensures PositionUpTo(Mirror(p), endgame, k) ==
            PositionUpTo(p, endgame, 64) - PositionUpTo(p, endgame, 64 - k)
  {
    if k > 0 {
      PositionMirrorUpTo(p, endgame, k - 1);
      MirrorSquareValue(p, k - 1, endgame);
    }
  }

  /** Mirroring the position and swapping colours leaves the positional term
      unchanged instead of negating it: both colours' table values are added. */
  lemma PositionColourSymmetric(p: Placement, endgame: bool)
    ensures PositionScore(Mirror(p), endgame) == PositionScore(p, endgame)
  {
    PositionMirrorUpTo(p, endgame, 64);
  }

  // ---------------------------------------------------------------- mobility

  /** Twice the difference between the number of legal moves of the side to move
      and the number of legal moves Black would have; zero when Black is to move. */
  function Mobility(n: Node, t: Color): (r: int)
    ensures t == Black ==> r == 0
  {
    (|MovesOf(n, t)| - |MovesOf(n, Black)|) * 2
  }

  /** Counts moves for the side to move, then for Black, and leaves the turn set to
      White whatever it was before. */
  method EvaluateMobility(board: Board) returns (score: int)
    modifies board`turn
    ensures score == Mobility(old(board.node), old(board.turn))
    ensures board.turn == White
  {
    var whiteMoves := |board.LegalMoves()|;
    board.turn := Black;
    var blackMoves := |board.LegalMoves()|;
    board.turn := White;
    score := (whiteMoves - blackMoves) * 2;
  }

  // ---------------------------------------------------------- pawn structure

  function PawnsOnFileUpTo(p: Placement, f: int, c: Color, k: nat): nat
    requires k <= 64
  {
    if k == 0 then 0
    else PawnsOnFileUpTo(p, f, c, k - 1) +
         (if File(k - 1) == f && p[k - 1] == Some(Piece(c, Pawn)) then 1 else 0)
  }

  function PawnsOnFile(p: Placement, f: int, c: Color): nat {
    PawnsOnFileUpTo(p, f, c, 64)
  }

  /** -20 for every white pawn beyond the first on the file, +20 for black. */
  function DoubledTerm(p: Placement, f: int): int {
    var w := PawnsOnFile(p, f, White);
    var b := PawnsOnFile(p, f, Black);
    (if w > 1 then -20 * (w - 1) else 0) + (if b > 1 then 20 * (b - 1) else 0)
  }

  function DoubledUpTo(p: Placement, f: nat): int
    requires f <= 8
  {
    if f == 0 then 0 else DoubledUpTo(p, f - 1) + DoubledTerm(p, f - 1)
  }

  /** A pawn of colour `c` stands on file `af`, which is a file of the board. */
  predicate PawnOnAdjacentFile(p: Placement, af: int, c: Color) {
    0 <= af < 8 && exists q :: 0 <= q < 64 && File(q) == af && p[q] == Some(Piece(c, Pawn))
  }

  predicate Isolated(p: Placement, sq: Square, c: Color) {
    !PawnOnAdjacentFile(p, File(sq) - 1, c) && !PawnOnAdjacentFile(p, File(sq) + 1, c)
  }

  /** -15 for an isolated white pawn, +15 for an isolated black one. */
  function IsolatedTerm(p: Placement, sq: Square): int {
    match p[sq]
    case Some(Piece(c, Pawn)) =>
      if Isolated(p, sq, c) then (if c == White then -15 else 15) else 0
    case _ => 0
  }

  function IsolatedUpTo(p: Placement, k: nat): int
    requires k <= 64
  {
    if k == 0 then 0 else IsolatedUpTo(p, k - 1) + IsolatedTerm(p, k - 1)
  }

  function PawnStructure(p: Placement): int {
    DoubledUpTo(p, 8) + IsolatedUpTo(p, 64)
  }

  method EvaluatePawnStructure(board: Board) returns (score: int)
    ensures score == PawnStructure(board.node.placement)
  {
    var p := board.node.placement;
    score := 0;
    for f := 0 to 8
      invariant score == DoubledUpTo(p, f)
    {
      var whitePawns := PawnsOnFile(p, f, White);
      var blackPawns := PawnsOnFile(p, f, Black);
      if whitePawns > 1 {
        score := score - 20 * (whitePawns - 1);
      }
      if blackPawns > 1 {
        score := score + 20 * (blackPawns - 1);
      }
    }
    for sq := 0 to 64
      invariant score == DoubledUpTo(p, 8) + IsolatedUpTo(p, sq)
    {
      var piece := p[sq];
      if piece.Some? && piece.value.kind == Pawn {
        var c := piece.value.color;
        var file := File(sq);
        var isolated := true;
        var adjacent := [file - 1, file + 1];
        var j := 0;
        while j < 2
          invariant 0 <= j <= 2
          invariant isolated <==> forall k :: 0 <= k < j ==> !PawnOnAdjacentFile(p, adjacent[k], c)
          invariant !isolated ==> j < 2
        {
          var af := adjacent[j];
          if 0 <= af < 8 {
            var s := 0;
            while s < 64
              invariant 0 <= s <= 64
              invariant isolated
              invariant forall q :: 0 <= q < s ==> !(File(q) == af && p[q] == Some(Piece(c, Pawn)))
            {
              if File(s) == af {
                var pawn := p[s];
                if pawn.Some? && pawn.value.kind == Pawn && pawn.value.color == c {
                  assert PawnOnAdjacentFile(p, adjacent[j], c);
                  isolated := false;
                  break;
                }
              }
              s := s + 1;
            }
          }
          if !isolated {
            assert adjacent[j] == File(sq) - 1 || adjacent[j] == File(sq) + 1;
            break;
          }
          j := j + 1;
        }
        assert adjacent[0] == File(sq) - 1 && adjacent[1] == File(sq) + 1;
        assert isolated ==> Isolated(p, sq, c);
        assert !isolated ==> !Isolated(p, sq, c);
        if isolated {
          if c == White {
            score := score - 15;
          } else {
            score := score + 15;
          }
        }
      }
    }
  }

  /** No file holds two pawns of one colour. */
  predicate NoDoubledPawns(p: Placement) {
    forall f, c :: 0 <= f < 8 ==> PawnsOnFile(p, f, c) <= 1
  }

  /** Every pawn has a pawn of its colour on an adjacent file. */
  predicate NoIsolatedPawns(p: Placement) {
    forall sq: Square, c :: p[sq] == Some(Piece(c, Pawn)) ==> !Isolated(p, sq, c)
  }

  lemma {:induction false} DoubledUpToZero(p: Placement, f: nat)
    requires f <= 8 && NoDoubledPawns(p)
    ensures DoubledUpTo(p, f) == 0
  {
    if f > 0 {
      DoubledUpToZero(p, f - 1);
      assert PawnsOnFile(p, f - 1, White) <= 1 && PawnsOnFile(p, f - 1, Black) <= 1;
    }
  }

  lemma {:induction false} IsolatedUpToZero(p: Placement, k: nat)
    requires k <= 64 && NoIsolatedPawns(p)
    ensures IsolatedUpTo(p, k) == 0
  {
    if k > 0 {
      IsolatedUpToZero(p, k - 1);
    }
  }

  /** Without doubled and isolated pawns the pawn-structure term is zero. */
  lemma PawnStructureZero(p: Placement)
    requires NoDoubledPawns(p) && NoIsolatedPawns(p)
    ensures PawnStructure(p) == 0
  {
    DoubledUpToZero(p, 8);
    IsolatedUpToZero(p, 64);
  }

  lemma {:induction false} PawnsOnFileSwap(p: Placement, f: int, c: Color, k: nat)
    requires k <= 64
    ensures PawnsOnFileUpTo(SwapColours(p), f, c, k) == PawnsOnFileUpTo(p, f, Opp(c), k)
  {
    if k > 0 {
      PawnsOnFileSwap(p, f, c, k - 1);
    }
  }

  lemma {:induction false} DoubledSwap(p: Placement, f: nat)
    requires f <= 8
    ensures DoubledUpTo(SwapColours(p), f) == -DoubledUpTo(p, f)
  {
    if f > 0 {
      DoubledSwap(p, f - 1);
      PawnsOnFileSwap(p, f - 1, White, 64);
      PawnsOnFileSwap(p, f - 1, Black, 64);
    }
  }

  lemma AdjacentSwap(p: Placement, af: int, c: Color)
    ensures PawnOnAdjacentFile(SwapColours(p), af, c) == PawnOnAdjacentFile(p, af, Opp(c))
  {
    var s := SwapColours(p);
    if PawnOnAdjacentFile(s, af, c) {
      var q :| 0 <= q < 64 && File(q) == af && s[q] == Some(Piece(c, Pawn));
      assert p[q] == Some(Piece(Opp(c), Pawn));
    }
    if PawnOnAdjacentFile(p, af, Opp(c)) {
      var q :| 0 <= q < 64 && File(q) == af && p[q] == Some(Piece(Opp(c), Pawn));
      assert s[q] == Some(Piece(c, Pawn));
    }
  }

  lemma {:induction false} IsolatedSwap(p: Placement, k: nat)
    requires k <= 64
    ensures IsolatedUpTo(SwapColours(p), k) == -IsolatedUpTo(p, k)
  {
    if k > 0 {
      IsolatedSwap(p, k - 1);
      var sq := k - 1;
      AdjacentSwap(p, File(sq) - 1, White);
      AdjacentSwap(p, File(sq) + 1, White);
      AdjacentSwap(p, File(sq) - 1, Black);
      AdjacentSwap(p, File(sq) + 1, Black);
    }
  }

  /** The pawn-structure term is antisymmetric: swapping colours negates it. */
  lemma PawnStructureSwapNegates(p: Placement)
    ensures PawnStructure(SwapColours(p)) == -PawnStructure(p)
  {
    DoubledSwap(p, 8);
    IsolatedSwap(p, 64);
  }

  // ------------------------------------------------------------- king safety

  /** The highest square below `k` holding a king of colour `c`. */
  function KingBelow(p: Placement, c: Color, k: nat): (r: Option<Square>)
    requires k <= 64
    ensures r.Some? ==> r.value < k && p[r.value] == Some(Piece(c, King))
    ensures r.Some? ==> forall q :: r.value < q < k ==> p[q] != Some(Piece(c, King))
    ensures r.None? ==> forall q :: 0 <= q < k ==> p[q] != Some(Piece(c, King))
  {
    if k == 0 then None
    else if p[k - 1] == Some(Piece(c, King)) then Some(k - 1)
    else KingBelow(p, c, k - 1)
  }

  /** The rules library reports the king on the highest-numbered square. */
  function KingSquare(p: Placement, c: Color): Option<Square> {
    KingBelow(p, c, 64)
  }

  /** +20 for a white king on g1 or c1, -20 for a black king on g8 or c8, and
      -10 / +10 for "the side to move is in check", each applied only when that
      colour's king square is found and is not a1 (square 0 counts as absent). */
  function KingSafety(p: Placement, inCheck: bool): int {
    var wk := KingSquare(p, White);
    var bk := KingSquare(p, Black);
    var whitePart :=
      if wk.Some? && wk.value != 0
      then (if wk.value == 6 || wk.value == 2 then 20 else 0) + (if inCheck then -10 else 0)
      else 0;
    var blackPart :=
      if bk.Some? && bk.value != 0
      then (if bk.value == 62 || bk.value == 58 then -20 else 0) + (if inCheck then 10 else 0)
      else 0;
    whitePart + blackPart
  }

  method EvaluateKingSafety(board: Board) returns (score: int)
    ensures score == KingSafety(board.node.placement, SideOf(board.node, board.turn).inCheck)
  {
    var p := board.node.placement;
    var inCheck := SideOf(board.node, board.turn).inCheck;
    score := 0;
    var whiteKing := KingSquare(p, White);
    var blackKing := KingSquare(p, Black);
    if whiteKing.Some? && whiteKing.value != 0 {
      if whiteKing.value == 6 || whiteKing.value == 2 {
        score := score + 20;
      }
      if inCheck {
        score := score - 10;
      }
    }
    if blackKing.Some? && blackKing.value != 0 {
      if blackKing.value == 62 || blackKing.value == 58 {
        score := score - 20;
      }
      if inCheck {
        score := score + 10;
      }
    }
  }

  /** With both kings found off a1, the two check terms cancel. */
  lemma KingSafetyCheckCancels(p: Placement)
    requires KingSquare(p, White).Some? && KingSquare(p, White).value != 0
    requires KingSquare(p, Black).Some? && KingSquare(p, Black).value != 0
    ensures KingSafety(p, true) == KingSafety(p, false)
  {
  }

  /** Emptying a1 does not move the king found for a colour whose king is not there. */
  lemma {:induction false} KingBelowClearA1(p: Placement, c: Color, k: nat)
    requires k <= 64 && p[0] != Some(Piece(c, King))
    ensures KingBelow(p[0 := None], c, k) == KingBelow(p, c, k)
  {
    if k > 0 {
      KingBelowClearA1(p, c, k - 1);
    }
  }

  /** A white king on a1 is scored as if it were not there: it gets neither the
      castling bonus nor the check penalty, while Black's terms stay. So in check
      the score is 10 higher than out of check whenever Black has a king. */
  lemma KingOnA1Ignored(p: Placement, inCheck: bool)
    requires p[0] == Some(Piece(White, King))
    requires forall q :: 0 < q < 64 ==> p[q] != Some(Piece(White, King))
    ensures KingSafety(p, inCheck) == KingSafety(p[0 := None], inCheck)
    ensures KingSquare(p, Black).Some? ==> KingSafety(p, true) == KingSafety(p, false) + 10
    ensures KingSquare(p, Black).None? ==> KingSafety(p, inCheck) == 0
  {
    assert KingSquare(p, White) == Some(0);
    KingBelowClearA1(p, Black, 64);
  }

  // -------------------------------------------------------------- evaluation

  predicate IsTerminal(n: Node, t: Color) {
    SideOf(n, t).checkmate || SideOf(n, t).stalemate || n.insufficient
  }

  /** The score of the position `n` with `t` to move. The check test of the king
      safety term sees White to move, because the mobility term set the turn. */
  function StaticEval(n: Node, t: Color): int {
    if SideOf(n, t).checkmate then (if t == White then -MateScore else MateScore)
    else if SideOf(n, t).stalemate || n.insufficient then 0
    else
      var p := n.placement;
      var endgame := IsEndgame(p);
      Material(p) + PositionScore(p, endgame) + Mobility(n, t) + PawnStructure(p)
        + KingSafety(p, n.white.inCheck)
  }

  /** The turn that evaluation leaves behind. */
  function EvalTurn(n: Node, t: Color): Color {
    if IsTerminal(n, t) then t else White
  }

  method EvaluateBoard(board: Board) returns (score: int)
    modifies board`turn
    ensures score == StaticEval(old(board.node), old(board.turn))
    ensures board.turn == EvalTurn(old(board.node), old(board.turn))
  {
    var side := SideOf(board.node, board.turn);
    if side.checkmate {
      return if board.turn == White then -MateScore else MateScore;
    }
    if side.stalemate || board.node.insufficient {
      return 0;
    }
    var endgame := IsEndgame(board.node.placement);
    var material := EvaluateMaterial(board);
    var positional := EvaluatePosition(board, endgame);
    var mobility := EvaluateMobility(board);
    var pawnStructure := EvaluatePawnStructure(board);
    var kingSafety := EvaluateKingSafety(board);
    score := material + positional + mobility + pawnStructure + kingSafety;
  }

  /** The sentinels: a mated White scores -99999, a mated Black +99999, a
      stalemate or a draw by material 0. Otherwise, with Black to move, the
      score has no mobility part. */
  lemma StaticEvalCases(n: Node, t: Color)
    ensures SideOf(n, t).checkmate ==> StaticEval(n, t) == (if t == White then -99999 else 99999)
    ensures !SideOf(n, t).checkmate && (SideOf(n, t).stalemate || n.insufficient) ==> StaticEval(n, t) == 0
    ensures !IsTerminal(n, t) && t == Black ==>
      StaticEval(n, t) == Material(n.placement) + PositionScore(n.placement, IsEndgame(n.placement))
        + PawnStructure(n.placement) + KingSafety(n.placement, n.white.inCheck)
  {
  }
}

# Chess engine V2: search, static evaluation and board viewer

This project models the three parts of the chess engine that hold its logic, and
proves properties of the model.

- **The search engine** (`NV_chess_engine_V2`). Alpha-beta minimax with separate
  maximizing and minimizing branches. The branches use principal variation search:
  a null window `(alpha, alpha + 1)` or `(beta - 1, beta)` for every move after the
  first, with a full re-search when the probe lands strictly inside the window. It
  also has:
  - a fail-hard, capture-only quiescence search that skips losing captures;
  - MVV-LVA / promotion / killer / history / centre move ordering;
  - a global two-slot killer table and a (from, to) history table, both updated on
    beta cutoffs;
  - the root move loop and the iterative-deepening driver;
  - the wrapper that clears the tables, plays the engine's move and resets the game.
- **The static evaluator** (`static_eval.py`). Material, piece-square tables,
  mobility, pawn structure and king safety, overridden by checkmate, stalemate
  and insufficient material.
- **The board viewer** (`chess_pygame_viewer.py`). Pixel/square conversion with a
  flippable board, the placement of the promotion overlay, the piece glyphs, and
  the click / undo / reset / flip transitions of the main loop, including the
  engine's reply when Black is to move.

The rules library is an oracle. A position is a finite tree (`ChessTypes.Node`):
the 64-square placement, and for each colour its legal moves, each edge leading
to the resulting position, plus the checkmate, stalemate, check and game-over
flags. `ChessTypes.Consistent` says when such a report is one the rules library
can give: no moves exactly for checkmate or stalemate, checkmate only in check,
stalemate never in check, both ending the game, and insufficient material ending
it for either colour, in every position of the tree.
The witness positions below are proved consistent; the search itself does not
need the predicate. `BoardState.Board` is the mutable board shared by engine and viewer: the
current position, the colour to move and the move stack. `Push` and `Pop` save
and restore the position together with the turn.

The engine is imperative and is modelled as a class:
- the killer list, the history map and the node counter are fields;
- each search method restores the board;
- each search method is proved against unpruned reference values in
  `SearchSpec`: the quiescence value `QuiescenceValue` and the full-width value
  `MinimaxValue`, whose leaves are quiescence values;
- float infinities are the `Scores.Ext` type;
- `Scores.Sound` is the fail-soft guarantee: inside the window the value is exact,
  at or below alpha it is an upper bound, at or above beta a lower bound.

Quirks of the code are modelled as written:
- Every stand-pat is scored from Black's point of view.
- The mobility term sets the turn to White. So at every non-terminal leaf of a
  search, the quiescence search goes on to generate White's captures.
- Piece-square values are added with the same sign for both colours.
- A king on a1 (square 0) is treated as absent by king safety.
- The killer table is global.
- `get_best_move` does not clear the tables.

## Model

| member | source | states |
|---|---|---|
| SearchEngine.KillerUpdateTable | NV_chess_engine_V2.py:185-191 | a move already in the killer table leaves it unchanged; any other move gives `[move, old[0]]`; the table keeps exactly two slots and then holds the move |
| SearchEngine.KillerUpdateDistinct | NV_chess_engine_V2.py:185-191 | the update keeps the table's invariant: a filled first slot differs from the second, so the same move never sits in both slots |
| SearchEngine.Engine.UpdateKiller | NV_chess_engine_V2.py:185-191 | the killer field becomes the updated table and nothing else changes |
| SearchEngine.HistoryUpdateTable | NV_chess_engine_V2.py:193-197 | the (from, to) entry becomes its old value (0 when missing) plus depth squared; every other key keeps its presence and value; no entry decreases |
| SearchEngine.Engine.UpdateHistory | NV_chess_engine_V2.py:193-197 | the history field becomes the updated map and nothing else changes |
| SearchEngine.Engine.constructor | NV_chess_engine_V2.py:20-26 | the engine starts on the given board with killers `[None, None]`, an empty history and no nodes counted |
| SearchEngine.Engine.EvaluateBoard | NV_chess_engine_V2.py:203-209 | the static score, negated for Black; the turn is left as evaluation leaves it |
| SearchEngine.Engine.Quiescence | NV_chess_engine_V2.py:144-183 | with alpha < beta the result is the quiescence value clamped into [alpha, beta]; the position and stack are restored and the turn is the one evaluation leaves |
| SearchEngine.Engine.QuiescenceLoop | NV_chess_engine_V2.py:159-183 | entered with alpha raised by the stand-pat score and still below beta, the capture loop returns the quiescence value clamped into [alpha, beta]; board, turn and stack are unchanged |
| SearchSpec.QuiescenceBounds | NV_chess_engine_V2.py:144-183 | the quiescence value is at least the stand-pat score and at least minus the value of every allowed capture, and it equals one of these |
| SearchSpec.QuiescencePrefixAtLeast | NV_chess_engine_V2.py:159-179 | over the first k moves the value is at least the stand-pat score and at least minus the value of every allowed capture among them |
| SearchSpec.QuiescencePrefixAttained | NV_chess_engine_V2.py:159-179 | over the first k moves the value is the stand-pat score or minus the value of one allowed capture among them |
| SearchSpec.QuiescencePrefixAtMost | NV_chess_engine_V2.py:162-181 | the value over the first k moves never exceeds the quiescence value, so a cutoff after k moves has seen a lower bound |
| SearchEngine.Engine.QuiescenceMove | NV_chess_engine_V2.py:162-181 | move i of the loop: a non-capture, or a capture of a cheaper piece by a dearer one, changes nothing; otherwise, without a cutoff, alpha becomes alpha raised by the quiescence value over the first i + 1 moves, still below beta, and a cutoff means that value reaches beta |
| SearchEngine.Engine.SearchCapture | NV_chess_engine_V2.py:175-177 | the negated search of the child with the negated, swapped window gives minus the child's quiescence value clamped into the window; the board is restored |
| Scores.ClampAbove | NV_chess_engine_V2.py:155-156 | a lower bound at or above beta clamps the value to beta |
| Scores.ClampBelow | NV_chess_engine_V2.py:183 | when the raised alpha (the maximum of alpha and the value) is still below beta, it is the clamped value |
| Scores.RaiseStep | NV_chess_engine_V2.py:179-181 | raising alpha by a score clamped into (alpha, beta) either reaches beta, and then the true maximum is at least beta, or gives alpha raised by the true maximum |
| Scores.NegClamp | NV_chess_engine_V2.py:176 | negating a value clamped into the negated, swapped window is clamping the negated value into the window |
| Scores.ClampSound | NV_chess_engine_V2.py:154-183 | a clamped value is sound for its window |
| SearchEngine.Engine.Minimax | NV_chess_engine_V2.py:28-102 | with alpha < beta the result is exact inside the window and a bound on the minimax value outside it; whatever the window, depth 0 gives the quiescence value clamped into the window, checkmate -99999 when maximizing and +99999 when minimizing, stalemate or insufficient material 0, and a non-terminal position with no legal move its stand-pat score; the board is restored (the turn as evaluation leaves it when a leaf was scored); history entries only grow; killers and history change only through cutoffs; the node counter grows |
| SearchSpec.MinimaxChildren | NV_chess_engine_V2.py:51-102 | away from the terminal cases the full-width value bounds every child's value (from above when maximizing, below when minimizing) and some child reaches it |
| SearchSpec.BestOfBounds | NV_chess_engine_V2.py:53-102 | the same over the first k moves |
| SearchSpec.MinimaxOverPermutation | NV_chess_engine_V2.py:43 | the same for any reordering of the legal moves, so the move order changes no value |
| SearchEngine.Engine.MaxLoop | NV_chess_engine_V2.py:51-76 | the maximizing loop over any ordering of the legal moves returns a value sound for the full-width maximizing value; the board is restored |
| SearchEngine.Engine.MinLoop | NV_chess_engine_V2.py:77-102 | the minimizing loop, likewise, sound for the minimizing value |
| SearchEngine.Engine.MaxMove | NV_chess_engine_V2.py:53-75 | one pass of the maximizing loop: at a cutoff the best score is at least beta and at most the move's value; otherwise the raised alpha stays below beta and the best score bounds the values of the moves seen, and equals one of them once above alpha; board restored; the tables change only at a cutoff |
| SearchEngine.Engine.MinMove | NV_chess_engine_V2.py:79-101 | the mirror pass of the minimizing loop, with the lowered beta |
| SearchEngine.MaxSoFarStep | NV_chess_engine_V2.py:69-70 | a move whose score is at least its value, and equal to it when it improves on alpha and the best so far, keeps the best score an upper bound of the values seen that is attained once above alpha |
| SearchEngine.MinSoFarStep | NV_chess_engine_V2.py:95-96 | the mirror statement for the minimizing loop |
| SearchEngine.Engine.RecordCutoff | NV_chess_engine_V2.py:71-75 | a cutoff updates the killer table and the history as the two update functions say, no history entry decreases, and the cutoff counter grows by one |
| SearchEngine.Engine.MaxChild | NV_chess_engine_V2.py:54-68 | one move of the maximizing loop with the full window or the probe `(alpha, alpha + 1)` and re-search: sound for the child's value; board restored |
| SearchEngine.Engine.MinChild | NV_chess_engine_V2.py:80-94 | one move of the minimizing loop with the full window or the probe `(beta - 1, beta)` and re-search: sound for the child's value, with the child's own turn restored for the re-search; board restored |
| SearchEngine.Engine.MinProbeAsWritten | NV_chess_engine_V2.py:88-92 | the probe and re-search as written: when the result is inside the window it is the child's value with the turn the probe left, not the child's own turn |
| SearchEngine.WitnessQuiescence | NV_chess_engine_V2.py:152-183 | the witness position (any placement; White has two quiet moves and Black one, each to a stalemate) is reported consistently, Black is not terminal and has a move, and with no capture the quiescence value is the stand-pat score whichever colour is to move |
| SearchEngine.WitnessMobility | static_eval.py:182-191 | evaluating the witness with White to move adds a mobility term of +2 (two White moves against one Black move), so the stand-pat score seen from Black is 2 lower than with Black to move |
| SearchEngine.ResearchSeesWrongTurn | NV_chess_engine_V2.py:86-92 | on the consistent witness with Black to move, worth v at depth 0, and the window (v - 10, v + 10): the probe (v + 9, v + 10) returns v + 9, strictly inside, and leaves White to move; the re-search with White to move returns v - 2, inside the window but not sound for the child's value |
| Scores.NullWindowUpper | NV_chess_engine_V2.py:62-66 | a probe result not strictly inside `(alpha, beta)`, sound for `(alpha, alpha + 1)`, is sound for `(alpha, beta)` |
| Scores.NullWindowLower | NV_chess_engine_V2.py:88-92 | a probe result not strictly inside `(alpha, beta)`, sound for `(beta - 1, beta)`, is sound for `(alpha, beta)` |
| Scores.MaxStep | NV_chess_engine_V2.py:69-75 | one step of the maximizing loop: the new alpha is the maximum so far; at a cutoff the best value is a lower bound; otherwise a new best is exact |
| Scores.MinStep | NV_chess_engine_V2.py:95-101 | the mirror step of the minimizing loop |
| MoveOrdering.OrderMoves | NV_chess_engine_V2.py:141-142 | the ordered list is a permutation of the moves, sorted by non-increasing move score, and moves sharing a score keep their generation order |
| MoveOrdering.CaptureBeforeQuiet | NV_chess_engine_V2.py:106-139 | while history entries stay below 60000, a capture onto an occupied square scores above any quiet non-promotion |
| StableSort.SortPermutation | NV_chess_engine_V2.py:142 | the sort returns a permutation of its input |
| StableSort.SortSorted | NV_chess_engine_V2.py:142 | the sort returns its input by non-increasing key |
| StableSort.InsertSorted | NV_chess_engine_V2.py:142 | inserting into a list sorted by non-increasing key keeps it sorted |
| StableSort.SortStable | NV_chess_engine_V2.py:142 | the elements sharing a key appear in their input order |
| SearchEngine.EarliestIsBest | NV_chess_engine_V2.py:243-260 | the earliest best move of any ordering of the legal moves is a move of best value for the colour searched |
| SearchEngine.FirstMove | NV_chess_engine_V2.py:262 | the fallback is `None` exactly when there is no legal move |
| SearchEngine.Engine.RootChild | NV_chess_engine_V2.py:246-248 | one root move: push, search the reply, pop; the score is sound for the reply's value and the board is restored |
| SearchEngine.Engine.SearchBlack | NV_chess_engine_V2.py:243-251 | Black's root loop returns `None` exactly when there are no moves, and otherwise the earliest move whose value is strictly the largest so far; board restored |
| SearchEngine.Engine.SearchWhite | NV_chess_engine_V2.py:252-260 | White's root loop, likewise with the smallest value |
| SearchEngine.Engine.SearchMove | NV_chess_engine_V2.py:237-262 | `_search_move` gives `None` exactly when there is no legal move; otherwise the earliest best move in the engine's order, which is a move of best value |
| SearchSpec.LastCompleted | NV_chess_engine_V2.py:223-231 | the last pass reached: passes 1 to r do not raise, and the next one raises, if there is one |
| SearchEngine.Engine.GetBestMove | NV_chess_engine_V2.py:211-235 | with d the depth of the last completed pass (or the given depth): d = 0 gives `None` and leaves the tables and counter untouched; otherwise `None` exactly when there is no legal move, and a move of best value at depth d when there is one; board restored. Which of several equally good moves is returned depends on the move order of pass d (the earliest best in that order, as `SearchMove` states), and that order is not stated here |
| SearchEngine.Engine.Deepen | NV_chess_engine_V2.py:223-231 | the deepening loop: with d the last completed pass, d = 0 gives `None` with the tables and counter untouched; otherwise `None` exactly when there is no legal move and else a move of best value at depth d; board restored |
| SearchSpec.LastCompletedUnique | NV_chess_engine_V2.py:226-231 | the last completed pass is the only depth with no failing pass up to it and, below the maximum depth, a failing pass right after it |
| SearchEngine.ChessEngine.constructor | NV_chess_engine_V2.py:269-272 | a fresh board in the starting position shared with a fresh engine, and depth 6 |
| SearchEngine.ChessEngine.MakeEngineMove | NV_chess_engine_V2.py:320-338 | game over: nothing changes and no move; otherwise the tables and counter are cleared, Black is searched with iterative deepening, and the move found, a move of best value, is pushed; no move exactly when no pass completed or there is no legal move, and then the position, turn and stack are unchanged |
| SearchEngine.ChessEngine.Reset | NV_chess_engine_V2.py:340-346 | a fresh board in the starting position, shared with the engine, empty killer and history tables; the counter is kept |
| Evaluation.FlipTableInvolution | static_eval.py:115-117 | flipping twice gives the table back |
| Evaluation.PieceSquareLookup | static_eval.py:120-154 | a white piece reads its table at its square and a black piece at 63 - square; the king reads the endgame table exactly when no queen and at most two rooks are left |
| Evaluation.EvaluateMaterial | static_eval.py:157-166 | the loop gives the sum over pawn to queen of (white count - black count) times the value |
| Evaluation.MaterialSwapNegates | static_eval.py:157-166 | swapping the colours of all pieces negates the material term |
| Evaluation.MaterialTermSwap | static_eval.py:162-164 | swapping colours negates each piece kind's material term |
| Evaluation.MaterialIgnoresKings | static_eval.py:161 | removing the kings leaves the material term unchanged |
| Evaluation.EvaluatePosition | static_eval.py:169-179 | the loop gives the sum of the table values of all occupied squares, the same sign for both colours |
| Evaluation.PositionColourSymmetric | static_eval.py:169-179 | mirroring the board and swapping colours leaves the positional term unchanged instead of negating it |
| Evaluation.Mobility | static_eval.py:182-191 | the mobility term is zero whenever Black is to move |
| Evaluation.EvaluateMobility | static_eval.py:182-191 | twice (moves of the side to move - moves of Black); only the turn changes, and it becomes White |
| Evaluation.EvaluatePawnStructure | static_eval.py:194-237 | the loops give the doubled-pawn terms (-20 / +20 per extra pawn on a file) plus the isolated-pawn terms (-15 / +15) |
| Evaluation.PawnStructureZero | static_eval.py:194-237 | with no doubled and no isolated pawns the term is zero |
| Evaluation.PawnStructureSwapNegates | static_eval.py:194-237 | swapping colours negates the pawn-structure term |
| Evaluation.KingBelow | static_eval.py:245-246 | the king square found is the highest-numbered square holding that king; none only when there is no such king |
| Evaluation.EvaluateKingSafety | static_eval.py:240-264 | the castled-king bonuses and the check terms, only for king squares other than a1 |
| Evaluation.KingSafetyCheckCancels | static_eval.py:248-262 | with both kings found off a1 the two check terms cancel |
| Evaluation.KingOnA1Ignored | static_eval.py:243-262 | the only white king standing on a1 is scored as if a1 were empty: no castling bonus and no check penalty, while Black's terms stay, so in check the score is 10 higher than out of check whenever Black has a king (and 0 when it has none) |
| Evaluation.KingBelowClearA1 | static_eval.py:244-245 | emptying a1 does not change the king square found for a colour whose king is not on a1 |
| Evaluation.EvaluateBoard | static_eval.py:267-306 | the score is the static evaluation of the position and turn before the call; the turn becomes White unless the position was terminal |
| Evaluation.StaticEvalCases | static_eval.py:274-306 | checkmate gives -99999 with White to move and +99999 otherwise; stalemate or insufficient material gives 0; otherwise, with Black to move, the sum has no mobility part |
| BoardState.EdgeFor | chess_pygame_viewer.py:429-430 | the edge found is a legal edge for the move; none exactly when no legal move equals it |
| Viewer.SquareAt | chess_pygame_viewer.py:106-116 | `None` exactly when the mouse is over the status bar; a square 0..63 for every pixel of the board |
| Viewer.SqToXY | chess_pygame_viewer.py:118-128 | both coordinates are multiples of the tile size between 0 and 7 tiles |
| Viewer.TileMapsBack | chess_pygame_viewer.py:106-128 | every pixel of a square's tile maps back to that square, flipped or not |
| Viewer.PixelInItsTile | chess_pygame_viewer.py:106-128 | every board pixel lies inside the tile of the square it maps to |
| Viewer.FlipMirrorsTile | chess_pygame_viewer.py:118-128 | flipping maps a tile at (x, y) to (7 tiles - x, 7 tiles - y) |
| Viewer.OverlayOrigin | chess_pygame_viewer.py:294-298 | the clamped overlay lies inside the board in both directions |
| Viewer.OverlayCoversTileCentre | chess_pygame_viewer.py:294-298 | the overlay covers the centre of the destination square wherever it is |
| Viewer.PieceToUnicode | chess_pygame_viewer.py:93-104 | an empty square gives the empty string and a piece one character; without the symbol font White is upper case and Black lower case |
| Viewer.GlyphsDistinct | chess_pygame_viewer.py:57-104 | different pieces get different glyphs with either font |
| Viewer.TargetsFrom | chess_pygame_viewer.py:411 | a square is highlighted exactly when some legal move goes there from the selected square |
| Viewer.ClickNeverPromotes | chess_pygame_viewer.py:414-429 | as written, when every pawn move to the last rank carries a promotion, a promoting click tries the move without one, which is not legal |
| Viewer.ClickPromotes | chess_pygame_viewer.py:414-429 | with the condition checked on the queen promotion, a promoting click with a legal chosen piece tries that legal promotion; other clicks try the plain move |
| Viewer.ViewerState.constructor | chess_pygame_viewer.py:355-377 | the engine is created on the viewer's board; nothing is selected, no last move, not flipped |
| Viewer.ViewerState.Select | chess_pygame_viewer.py:407-411 | selecting an own piece highlights exactly its legal targets |
| Viewer.ViewerState.Click | chess_pygame_viewer.py:400-443 | a click on the status bar changes nothing; with no selection it selects an own piece or nothing; with a selection a legal move is pushed, recorded as the last move and the selection cleared, and otherwise an own piece is reselected or the selection cleared |
| Viewer.ViewerState.Undo | chess_pygame_viewer.py:386-391 | with no move played nothing changes; otherwise the last move is taken back, becomes the highlighted move, and the selection is cleared |
| Viewer.ViewerState.ResetKey | chess_pygame_viewer.py:392-396 | the board returns to the starting position with an empty stack, no last move and no selection |
| Viewer.ViewerState.Flip | chess_pygame_viewer.py:397-398 | only the orientation changes |
| Viewer.ViewerState.EngineReply | chess_pygame_viewer.py:445-451 | with White to move nothing happens; with Black to move, a four-ply iterative-deepening search whose move, a move of best value, is pushed and highlighted; no move exactly when no pass completed or there is no legal move |

## Left out

- The rules library (legal-move generation, push/pop, checkmate, stalemate, insufficient material, check, piece lists, king lookup) is an oracle: the position tree and `BoardState.Board` stand for it.
- The transposition table, `_get_board_key` and the search start time are left out, because they are written but never read.
- Floating point: the infinities are `Scores.Ext`, and every score is an integer.
- The `ChessEngine` accessors and `make_move` are left out, because they only forward calls to the rules library.
- Exceptions in iterative deepening are the set `failing` of depths whose pass raises before changing anything. A pass that raises halfway through, leaving tables partly updated, is not modelled.
- SearchEngine.Engine.GetBestMove: without iterative deepening it requires depth >= 1. At depth 0 the source calls `minimax` with depth -1, which never reaches the depth-0 test and recurses until a terminal position or the interpreter's recursion limit.
- SearchEngine.Engine.Minimax: the node counter is only stated to grow, not its exact count, because it is diagnostic.
- SearchEngine.Engine.MinChild: this is the corrected re-search (see Findings). It restores the child's turn before the re-search. The as-written behaviour is `MinProbeAsWritten`.
- SearchEngine.Engine.MaxChild: restores the child's turn before the re-search in the same way. This changes nothing only when the colour searched is the side to move at the root, so that maximizing nodes have children with White to move. `make_engine_move` searches Black whatever the turn (NV_chess_engine_V2.py:333), so the maximizing re-search can see the wrong turn as well.
- SearchEngine.Engine.Minimax: proved for the corrected re-search of `MaxChild` and `MinChild`, not for the source's re-search.
- SearchEngine.Engine.MaxLoop: proved for the corrected re-search.
- SearchEngine.Engine.MinLoop: proved for the corrected re-search.
- SearchEngine.Engine.MaxMove: proved for the corrected re-search.
- SearchEngine.Engine.MinMove: proved for the corrected re-search.
- SearchEngine.Engine.RootChild: proved for the corrected re-search.
- SearchEngine.Engine.SearchBlack: proved for the corrected re-search.
- SearchEngine.Engine.SearchWhite: proved for the corrected re-search.
- SearchEngine.Engine.SearchMove: proved for the corrected re-search.
- SearchEngine.Engine.GetBestMove: proved for the corrected re-search.
- SearchEngine.Engine.Deepen: proved for the corrected re-search.
- SearchEngine.ChessEngine.MakeEngineMove: proved for the corrected re-search; as written its move can be chosen on re-search values that are not the child's value (ResearchSeesWrongTurn).
- Viewer.ViewerState.EngineReply: proved for the corrected re-search.
- Viewer.ViewerState.Click: uses the corrected ClickMove (see Findings); as written a promoting click never promotes (ClickNeverPromotes).
- The `Move` truthiness tests (`if best_move`, `if move`) are modelled as `Some`, because a null move is never legal.
- Rendering, fonts, labels, the status bar, the event polling and the wait loop of `promotion_choice` are left out. The overlay's answer is the `choice` parameter of `Viewer.ViewerState.Click`. The frame loop is one method call per event.
- The viewer's `best_font` font probing is left out: its result is the `fontsOk` parameter of `Viewer.PieceToUnicode`.
- `test_engine.py` is left out, because it is a random self-play script that prints and times, with no assertions.

## Findings

| source | as written | input that shows it | evidently intended | confidence | as-written member | corrected member |
|---|---|---|---|---|---|---|
| NV_chess_engine_V2.py:86-92 | the null-window probe of the minimizing branch evaluates the child, and evaluation (static_eval.py:186-188) leaves White to move; the full re-search then searches the child, which has Black to move, with White to move | a child on any placement with Black to move, in which White has two quiet moves and Black one, each leading to a stalemate, reported consistently, searched at depth 0 with window (v - 10, v + 10) where v is its value: the probe (v + 9, v + 10) returns v + 9 and leaves White to move, and the re-search returns v - 2 | the re-search sees the same position as the probe, so an in-window result is the child's value | not executed | SearchEngine.ResearchSeesWrongTurn | SearchEngine.Engine.MinChild |
| chess_pygame_viewer.py:416-427 | the promotion overlay is offered only if the move without a promotion is legal; the rules library lists a pawn move to the last rank only with a promotion piece, so the condition never holds and a human player can never promote | White pawn on the seventh rank with a free square ahead: clicking it and then that square tries the plain move, which is illegal, so the pawn is merely deselected | offer the overlay when the promoting move (for example to a queen) is legal | not executed | Viewer.ClickNeverPromotes | Viewer.ClickPromotes |

# Tethari rules engine and computer player, in Dafny

Tethari is a two-player game on a 6×6 board. Its pieces are the Hauptmann (H), Waechter (W), Klinge (K), Springer (S), Turm (T), Tuemmler (P) and Orca (O).

A Tuemmler that captures is promoted to an Orca.

Isolation works across two of a side's own turns:
- At the end of a side's move, each of its pieces with no friendly piece among its eight neighbours is marked *endangered*.
- At the side's next move, a marked piece that is still isolated dies.
- A marked piece that has found a neighbour loses its mark.
- A side reduced to one piece never marks it and never loses it to isolation.

The game ends in one of these ways:
- A side loses all its pieces.
- A position occurs for the third time (draw).
- 100 half-moves pass without a capture or death (draw).
- The side to move has no move, and loses.

The project models the whole engine and the search of `tethari/assets/tethari.js`:

- **`TethariBoard`** (`board.dfy`): the board types and coordinates, including `inBounds`, `coordStr`/`parseCoord`, `opposite` and `forward`. It also has the file-major scan order that `pieces` follows, and the isolation test of `_isIsolated`.
- **`TethariMoves`** (`moves.dfy`): the movement tables `stepDeltas` and `slideDirections`, and the move generation of `movesFor` and `allMoves` as functions. The lemmas characterise generation:
  - step moves;
  - the Tuemmler's forward step;
  - rays that stop at the first occupied square;
  - Springer leaps that ignore pieces in between.
- **`TethariRules`** (`rules.dfy`): what one move does, as functions on a `GameState` value. It covers relocation and capture, `_resolveEndangered`, `_markEndangered`, the counters, `_hash` and the closing checks, plus the notation of `_notation`. The lemmas state the rules each step keeps.
- **`TethariEngine`** (`engine.dfy`): the class `TethariGame`. Its fields are the source's fields, and its methods update them step by step as the source does. Each method is proved to leave the state the `TethariRules` functions describe.
- **`TethariGroups`** (`groups.dfy`): the flood fill of `_countGroups`. It is proved to count the 8-connected groups of a side, defined through walks between own pieces.
- **`TethariEval`** (`evaluate.dfy`): the heuristic `_evaluate`, as a method proved equal to a specification function `Score`.
- **`TethariAI`** (`search.dfy`): the search.
  - `_orderMoves` is an insertion-sorting function proved to permute and sort.
  - `_minimax` is a method over the game object, proved fail-soft against plain minimax.
  - `findBestMove` is proved to return an optimal move.

JavaScript's `Infinity` in the search windows is the datatype `Bound` (`NegInf`, `Finite(n)`, `PosInf`), so no sentinel constant is needed. `Math.round(MATERIAL * 0.4)` is the exact `2 * m / 5`, because every material value is a multiple of 5. The distance from the centre is doubled, `|2f − 5| + |2r − 5|`, so it is a whole number.

A few facts about the code that the model keeps:
- The default layout places 9 pieces per side (lines 433-460).
- White's elimination is checked before Black's, so Black wins when both sides are wiped out at once (lines 653-666).
- `executeMove` checks neither legality nor a finished game. The model only requires that the origin holds a piece and both squares are on the board.

## Model

| member | source | states |
|---|---|---|
| TethariBoard.Opposite | tethari/assets/tethari.js:362-364 | the opposite side is never the side itself |
| TethariBoard.Forward | tethari/assets/tethari.js:366-368 | forward is +1 rank exactly for White and −1 for Black |
| TethariBoard.CoordStr | tethari/assets/tethari.js:352-354 | a square's name is a file letter a–f followed by a rank digit, and `ParseCoord` reads it back to the same square |
| TethariBoard.ParseCoord | tethari/assets/tethari.js:356-360 | a square is returned exactly when the text is two characters, a file letter a–f in either case and a digit 1–6; the square is on the board and names those characters |
| TethariBoard.Put | tethari/assets/tethari.js:618-619 | writing one square changes that square and no other |
| TethariBoard.PiecesOfMember | tethari/assets/tethari.js:535-546 | a located piece is listed for a side exactly when that side's piece with that kind and mark stands on that square |
| TethariBoard.PiecesUpToSorted | tethari/assets/tethari.js:535-546 | the pieces are listed in file-major scan order, each square at most once |
| TethariBoard.PieceCountPositive | tethari/assets/tethari.js:653-666 | a side has a positive piece count exactly when some square holds one of its pieces |
| TethariBoard.IsolatedAlong | tethari/assets/tethari.js:696-706 | the scan over the directions reports isolation exactly when no direction leads to a friendly piece |
| TethariBoard.IsolatedMeansNoFriendlyNeighbour | tethari/assets/tethari.js:27-30 | isolated means that no on-board square among the eight neighbours holds a piece of the same side |
| TethariBoard.IsolatedSameOwners | tethari/assets/tethari.js:696-706 | isolation depends only on where each side's pieces stand, not on kinds or marks |
| TethariMoves.StepDeltasFacts | tethari/assets/tethari.js:378-394 | no step table contains the null step; Turm and Tuemmler have no step table |
| TethariMoves.StepDeltasMirror | tethari/assets/tethari.js:378-394 | Black's steps are White's steps reflected across the middle rank |
| TethariMoves.SlideDirections | tethari/assets/tethari.js:396-406 | slide directions are orthogonal unit steps; the Tuemmler slides sideways only; pieces other than Turm, Orca and Tuemmler do not slide |
| TethariMoves.StepMovesMember | tethari/assets/tethari.js:555-564 | a step move is generated exactly for a table step landing on the board on a square that is empty or holds an enemy |
| TethariMoves.RayMember | tethari/assets/tethari.js:576-593 | a ray yields the empty squares up to the first occupied square, and that square only when it holds an enemy |
| TethariMoves.SlideStopsAtFirstPiece | tethari/assets/tethari.js:576-593 | a slide reaches a square exactly when every square between is empty and the square is empty or holds an enemy |
| TethariMoves.SlideMovesMember | tethari/assets/tethari.js:576-593 | the slides of a piece are exactly the squares some slide direction reaches |
| TethariMoves.MovesFromMember | tethari/assets/tethari.js:548-596 | an empty square has no moves; otherwise a move is generated exactly when it is a landable table step, a Tuemmler's forward step, or a slide reach |
| TethariMoves.MovesFromSound | tethari/assets/tethari.js:548-596 | every generated move starts at the square, leaves it, lands on the board and never on a friendly piece |
| TethariMoves.SpringerLeapsOver | tethari/assets/tethari.js:378-394 | a Springer reaches exactly the eight knight squares that are landable, whatever stands between |
| TethariMoves.AllMovesMember | tethari/assets/tethari.js:598-608 | the moves of a side are exactly the moves generated from the squares holding its pieces |
| TethariMoves.AllMovesPlayable | tethari/assets/tethari.js:598-608 | every move of a side starts on one of that side's pieces and lands on a landable square |
| TethariRules.Lose | tethari/assets/tethari.js:624-625 | lost kinds are appended to the owner's lost-list; the other list and the rest of the state are unchanged |
| TethariRules.DeathsMember | tethari/assets/tethari.js:720-727 | a death is listed exactly for a marked piece of the side that is isolated on the board as it stood before any removal |
| TethariRules.ResolvedSquare | tethari/assets/tethari.js:708-743 | with two or more pieces, a square is emptied exactly when it held a marked isolated own piece; a marked own piece that is not isolated loses its mark; other squares are unchanged |
| TethariRules.ResolveLastMan | tethari/assets/tethari.js:712-718 | with at most one piece there are no deaths, no square is emptied and the side's pieces end up unmarked |
| TethariRules.ResolvedOwners | tethari/assets/tethari.js:708-743 | resolution never adds pieces to the side and leaves the opponent's squares as they were |
| TethariRules.MarkedSquare | tethari/assets/tethari.js:745-770 | marking leaves every square without an own piece unchanged; with two or more pieces an own piece is marked exactly when isolated, otherwise it is unmarked |
| TethariRules.MarkedSameOwners | tethari/assets/tethari.js:745-770 | marking moves and removes no piece |
| TethariRules.NewlyEndangeredMember | tethari/assets/tethari.js:745-770 | the returned squares are exactly the own pieces whose mark went from clear to set, and none when the side has at most one piece |
| TethariRules.Token | tethari/assets/tethari.js:690 | a square's hash token is one to three characters long |
| TethariRules.TokenInjective | tethari/assets/tethari.js:690 | different squares get different tokens |
| TethariRules.HashIdentifiesPosition | tethari/assets/tethari.js:685-694 | two hashes are equal exactly when the side to move and every square (owner, kind and mark) are equal |
| TethariRules.OccurrencesPositive | tethari/assets/tethari.js:672 | a key occurs in the history at least once exactly when it is in it |
| TethariRules.RelocateMovesPiece | tethari/assets/tethari.js:611-631 | the destination receives the mover, or a fresh unmarked Orca when a Tuemmler captured; the origin is emptied and nothing else on the board changes; a capture goes on the captured piece's own lost-list only |
| TethariRules.ApplyBoard | tethari/assets/tethari.js:633-634 | after relocation, the mover's side is resolved and then re-marked; the deaths are those of resolution and go on the mover's own lost-list |
| TethariRules.ApplyCounters | tethari/assets/tethari.js:636-638 | the move count grows by one; the quiet-move counter restarts after a capture or a death and otherwise grows by one |
| TethariRules.ApplyElimination | tethari/assets/tethari.js:653-666 | no White piece left means Black wins, otherwise no Black piece left means White wins; the side to move and the history stay as they were |
| TethariRules.ApplyContinues | tethari/assets/tethari.js:668-682 | with both sides on the board the turn passes and the new key is appended; the game is drawn on a third occurrence or the 100th quiet half-move, else lost by a side with no moves, else goes on |
| TethariRules.QuietMoveAt99Draws | tethari/assets/tethari.js:636-637 | a quiet move with the counter at 99 and both sides present draws the game |
| TethariRules.BothEliminatedBlackWins | tethari/assets/tethari.js:656-660 | when both sides are wiped out by one move, Black is the winner |
| TethariRules.UnrescuedPieceDies | tethari/assets/tethari.js:720-740 | a marked own piece still isolated after the move, with its side holding two or more pieces, dies and its square is emptied |
| TethariRules.RescueClearsMark | tethari/assets/tethari.js:729-731 | a marked own piece that has gained a neighbour survives with its mark cleared |
| TethariRules.LastManNeverMarked | tethari/assets/tethari.js:712-718 | a side with at most one piece suffers no death and ends the move with no marked piece |
| TethariRules.MarksMatchIsolation | tethari/assets/tethari.js:745-770 | after a move each piece of the mover is marked exactly when its side holds two or more pieces and it is isolated on the final board |
| TethariRules.OpponentUntouched | tethari/assets/tethari.js:633-634 | resolution and marking leave every square not holding a mover's piece as relocation left it |
| TethariRules.NotationReadsBack | tethari/assets/tethari.js:772-782 | the notation starts with the kind's letter and both squares (which read back to the move), has "x" exactly on a capture and "=O" for a promotion, then each death as " †" and its square and each new mark as " !" and its square, every square reading back through `ParseCoord`, in list order |
| TethariEngine.DefaultBoard | tethari/assets/tethari.js:433-460 | every square holds the default layout's piece for that square |
| TethariEngine.DefaultMirrored | tethari/assets/tethari.js:433-460 | the default layout is symmetric: Black's pieces mirror White's across the middle, White on the first three ranks |
| TethariEngine.PlaceAllSquare | tethari/assets/tethari.js:462-485 | after loading, each square holds the piece of the last placement naming it, or nothing |
| TethariEngine.Bury | tethari/assets/tethari.js:733-740 | exactly the squares of the deaths are emptied, and the lost kinds are the deaths' kinds in order |
| TethariEngine.IsIsolated | tethari/assets/tethari.js:696-706 | the answer is whether the square has no friendly neighbour |
| TethariEngine.MarkPieces | tethari/assets/tethari.js:756-769 | each listed own piece gets the mark of its isolation; the newly marked squares are returned |
| TethariEngine.Notation | tethari/assets/tethari.js:772-782 | the string built is the notation of the move |
| TethariEngine.StepTargets | tethari/assets/tethari.js:555-564 | the loop over the step table yields the specified step moves |
| TethariEngine.WalkRay | tethari/assets/tethari.js:578-591 | the walk along one direction yields that direction's ray |
| TethariEngine.SlideTargets | tethari/assets/tethari.js:576-593 | the walks over all directions yield the specified slide moves |
| TethariEngine.TethariGame.constructor | tethari/assets/tethari.js:409-412 | a new game holds the initial state and no last move |
| TethariEngine.TethariGame.Reset | tethari/assets/tethari.js:414-431 | a reset game holds the initial state: default layout, White to move, zero counters, empty lists, the start key in the history |
| TethariEngine.TethariGame.SetupDefaultPosition | tethari/assets/tethari.js:433-460 | the empty board receives the default layout and nothing else changes |
| TethariEngine.TethariGame.LoadPosition | tethari/assets/tethari.js:462-485 | the game holds the loaded position, the side to move given, fresh counters and the position's key as history |
| TethariEngine.TethariGame.SaveState | tethari/assets/tethari.js:487-516 | the snapshot is the whole rules state |
| TethariEngine.TethariGame.RestoreState | tethari/assets/tethari.js:518-533 | restoring a snapshot brings back exactly the saved rules state |
| TethariEngine.TethariGame.Pieces | tethari/assets/tethari.js:535-546 | the list is the side's pieces in scan order |
| TethariEngine.TethariGame.MovesFor | tethari/assets/tethari.js:548-596 | the moves are the generated moves of the square |
| TethariEngine.TethariGame.AllMoves | tethari/assets/tethari.js:598-608 | the moves are the moves of the side, square by square in scan order |
| TethariEngine.TethariGame.Hash | tethari/assets/tethari.js:685-694 | the key is the position's hash |
| TethariEngine.TethariGame.Sweep | tethari/assets/tethari.js:720-727 | the sweep lists the deaths, and the marks to clear exactly for marked own pieces that are not isolated |
| TethariEngine.TethariGame.ClearMarks | tethari/assets/tethari.js:729-731 | exactly the named squares lose their marks, and nothing else changes |
| TethariEngine.TethariGame.ResolveEndangered | tethari/assets/tethari.js:708-743 | the board becomes the resolved board, the deaths are returned and go on the side's lost-list, and nothing else changes |
| TethariEngine.TethariGame.MarkEndangered | tethari/assets/tethari.js:745-770 | the board becomes the marked board, the newly marked squares are returned, and nothing else changes |
| TethariEngine.TethariGame.Displace | tethari/assets/tethari.js:611-631 | the state and record after relocation are the specified ones |
| TethariEngine.TethariGame.Aftermath | tethari/assets/tethari.js:633-638 | resolution, marking and the counters leave the specified state |
| TethariEngine.TethariGame.CloseChecks | tethari/assets/tethari.js:653-682 | the closing checks leave the specified state |
| TethariEngine.TethariGame.ExecuteMove | tethari/assets/tethari.js:610-683 | the game ends in the state the rules give for the move, and keeps that move's record, deaths and new marks |
| TethariGroups.ConnectedTrans | tethari/assets/tethari.js:931-960 | connection through own pieces is transitive |
| TethariGroups.ClosedHoldsReach | tethari/assets/tethari.js:941-955 | a visited set closed under own neighbours holds everything reachable from it |
| TethariGroups.Flood | tethari/assets/tethari.js:941-955 | one flood visits, on top of what was visited, exactly the squares connected to its start |
| TethariGroups.VisitNeighbours | tethari/assets/tethari.js:946-954 | every unvisited own neighbour is visited and queued, and only squares connected to the start are visited |
| TethariGroups.CountGroups | tethari/assets/tethari.js:931-960 | the count is the number of 8-connected groups of the side's pieces |
| TethariGroups.GroupCountBounds | tethari/assets/tethari.js:931-960 | a side has no more groups than pieces, and no groups exactly when it has no pieces |
| TethariGroups.GroupCountAllIsolated | tethari/assets/tethari.js:931-960 | when no piece of a side touches another, every piece is a group of its own |
| TethariGroups.GroupCountSameOwners | tethari/assets/tethari.js:931-960 | the count depends only on where the side's pieces stand |
| TethariEval.Material | tethari/assets/tethari.js:17-25 | every material value is a multiple of 5 between 150 and 750 |
| TethariEval.Penalty | tethari/assets/tethari.js:883-885 | the endangered penalty is exactly 40% of the material value, and positive and smaller than it |
| TethariEval.NeighboursZeroIffIsolated | tethari/assets/tethari.js:887-894 | the neighbour count is at most 8 and is zero exactly when the piece is isolated |
| TethariEval.GroupTerm | tethari/assets/tethari.js:921-926 | one group or none earns the side +50, more groups cost the side points |
| TethariEval.GroupTermPerGroup | tethari/assets/tethari.js:924-925 | for the side, going from one group to two costs 90 (the lost 50 plus 40), and each further group costs 40 more |
| TethariEval.GroupTermMonotone | tethari/assets/tethari.js:921-926 | for the side, more groups are never better, and strictly worse once there are more than one |
| TethariEval.ScoreTuemmler | tethari/assets/tethari.js:902-917 | the Tuemmler terms are the advance bonus plus 80 for each enemy beside or in front |
| TethariEval.ScoreSquare | tethari/assets/tethari.js:877-917 | the loop body adds the specified term of the square |
| TethariEval.CountNeighbours | tethari/assets/tethari.js:887-894 | the counted neighbours are the friendly pieces among the eight neighbours |
| TethariEval.Evaluate | tethari/assets/tethari.js:872-929 | the score is the specified heuristic of the board |
| TethariEval.MarkingCostsPenalty | tethari/assets/tethari.js:883-885 | marking one piece lowers its side's score by exactly the penalty and changes nothing else |
| TethariAI.OrderMoves | tethari/assets/tethari.js:859-870 | ordering permutes the moves into comparator order: bigger capture first, then closer to the centre |
| TethariAI.OrderMovesMembers | tethari/assets/tethari.js:859-870 | ordering keeps exactly the same moves and their number |
| TethariAI.Better | tethari/assets/tethari.js:831-856 | the better of two values is one of them and dominates both for the side choosing |
| TethariAI.BestAttained | tethari/assets/tethari.js:831-856 | the best value is one of the values and none is better |
| TethariAI.FullWindowExact | tethari/assets/tethari.js:793-801 | a fail-soft result in the full window is the exact value |
| TethariAI.MaxFinish | tethari/assets/tethari.js:831-843 | a maximizing node that saw every child or reached beta has a fail-soft bound on its value |
| TethariAI.MinFinish | tethari/assets/tethari.js:845-856 | a minimizing node that saw every child or reached alpha has a fail-soft bound on its value |
| TethariAI.Minimax | tethari/assets/tethari.js:815-857 | the rules state is restored, and the result is a fail-soft bound on plain minimax: exact inside the window, at most alpha or at least beta outside; the last-move record is left unconstrained, since it ends as the last explored move's record rather than the one from before the search |
| TethariAI.SearchMove | tethari/assets/tethari.js:834-837 | save, play, search and restore leave the game state as it was and bound the move's value |
| TethariAI.MaxNode | tethari/assets/tethari.js:831-843 | the maximizing loop leaves the state as it was and bounds the best child value |
| TethariAI.MinNode | tethari/assets/tethari.js:845-856 | the minimizing loop leaves the state as it was and bounds the best child value |
| TethariAI.RootMoves | tethari/assets/tethari.js:793-811 | every move is searched exactly, and the kept moves are exactly those tied for the best value |
| TethariAI.ChosenIsBest | tethari/assets/tethari.js:793-813 | a move tied for the best is a move of the side, no move beats it, and its value is the minimax value |
| TethariAI.FindBestMove | tethari/assets/tethari.js:785-813 | no move exactly when the side has none; otherwise a move of the side that no move beats and whose value is the position's minimax value; the rules state is restored, but the last-move record is not the one from before the search |

## Left out

- `TestLabController`, `TethariApp` and the scenario list are left out. They cover rendering, events, timers, animation and test-harness parsing, and hold no rule logic.
- `moveLog`, `isSearching` and the log row layout in `executeMove` (lines 644-651) are left out as UI bookkeeping. The notation string itself is modelled by `TethariRules.NotationOf` and `TethariEngine.Notation`.
- `deepClone` is left out. It serves only the test lab, and the snapshot of `saveState`/`restoreState` is modelled as a value copy.
- TethariEngine.TethariGame.SaveState: models `saveState()` without `includeUi`, which is the form the search uses. The snapshot holds the rules state, and restoring it leaves `lastMove`, `lastDeaths` and `lastEndangered` as they were. The `includeUi` copies of the move log and the last-move record are not modelled.
- TethariAI.FindBestMove: `Math.random` is the parameter `pick`, reduced modulo the number of tied moves. Only the optimality of the chosen move is proved.
- TethariAI.FindBestMove: requires a depth of at least 1. At depth 0 the source calls `_minimax` with depth −1, so its `depth === 0` test is never met. The search then runs on until every line ends in a finished game or a side without moves, which is an unbounded search that the model does not capture.
- TethariEngine.TethariGame.LoadPosition: the side to move is a required parameter. The JavaScript default of White when it is omitted is not modelled.
- TethariEngine.TethariGame.ExecuteMove: requires only that the origin holds a piece and both squares are on the board. Like the source, it does not check legality or whether the game is already over.
- The board is a value, a sequence of files of optional pieces. The source can share one piece object between squares, but that aliasing cannot arise through these operations and is not modelled.
- JavaScript numbers are modelled as exact integers, and `Infinity` as the `Bound` datatype. No value here comes near the range where floating point would round.
- TethariAI.OrderMoves: defined as a stable insertion sort, matching the stable `Array.prototype.sort`. Only the comparator order and the permutation are stated as properties. That moves comparing equal keep their relative order is not stated.
- TethariEval.Evaluate: the mirror symmetry of the score between the sides is not stated.
- `executeMove` computes `_hash()` twice after a move (lines 669 and 671). Both calls give the same key, and the model computes it once.

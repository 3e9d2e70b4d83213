# Ô Ăn Quan rule engine and computer player, in Dafny

This project models the game logic of a Unity Ô Ăn Quan (Vietnamese
mancala) game, `src/Assets/Scripts/BoardManager.cs`, and proves properties
of the model. The board is a ring of twelve pits. Pits 0 and 6 are the two
granaries ("quan"). The player owns pits 1..5 and the computer owns pits
7..11. Sowing goes forward (increasing index) unless a ReverseTurn card has
flipped the direction.

The model is written as pure functions over a `seq<int>` board of length 12.
The turn controller is written as methods.

| file | module | what it holds |
|---|---|---|
| `wrappers.dfy` | `Wrappers` | `Option` |
| `ints.dfy` | `Ints` | `Min` and `Max` of two integers |
| `ring.dfy` | `Ring` | pit indices: `calcNextIndex`, `calcNextNextIndex`, walking and distance around the ring |
| `board.dfy` | `Board` | stone sums, sowing with a closed form (`Hits`), the capture chain, `CheckEndGame` |
| `cards.dfy` | `Cards` | `DrawCard`, as written and corrected, with the tally of its 100 outcomes |
| `rules.dfy` | `Rules` | the game state, `RestartGame`/`InitializeBoard`, `moveFromCell`, `CalculateFinalScores` |
| `search.dfy` | `Search` | `SimulateMove`, `EvaluateBoard`, `Minimax` with alpha-beta, plain minimax as its reference, the move choice of `ComputerMove` |
| `turns.dfy` | `Turns` | `PlayerMove`, `ComputerMove`, the end-of-game sweep, card use, and a whole game as a sequence of clicks |

Some terms used below:
- **MoveEffect** describes what one move may change. The board keeps its length and the turn count and direction stay the same. Only the mover's score may grow; the mover is the player while `playerTurnLeft > 0`. The card slot changes only when an empty slot is filled by a draw during the player's turn. Stones on the board plus both scores are conserved, and no pit goes negative.
- **Conserves** says the same as MoveEffect's last point across a whole action. In addition, neither score goes down.
- **NoOverflow** bounds the stones and scores for a given search depth. Under it no search value can reach the 32-bit `int.MinValue`/`int.MaxValue` that BoardManager uses as infinities.

Two quirks of `SimulateMove` are kept as written; nothing in BoardManager treats them as mistakes.
- It always starts from the live board (line 404), not from the snapshot it is passed. The search therefore never looks past one move of the live board.
- It always credits captures to `playerScore` (line 424).

## Model

| member | source | states |
|---|---|---|
| Ring.Next | src/Assets/Scripts/BoardManager.cs:24-32 | the next pit in the direction of play is always a pit 0..11, and it is the index plus or minus one, modulo 12 |
| Ring.NextNext | src/Assets/Scripts/BoardManager.cs:33-41 | the pit two steps on is the index plus or minus two modulo 12, and it is the next pit of the next pit |
| Board.Drop | src/Assets/Scripts/BoardManager.cs:109-116 | dropping n stones one per pit adds exactly n stones and keeps pits non-negative; the last stone lands n steps on |
| Board.DropHits | src/Assets/Scripts/BoardManager.cs:109-116 | after dropping n stones, every pit has gained one stone per lap of the n steps that reaches it |
| Board.Sow | src/Assets/Scripts/BoardManager.cs:103-116 | sowing a pit conserves the stones on the board (for a non-negative pit) and keeps pits non-negative; the last stone lands as many steps on as the pit held |
| Board.SowHits | src/Assets/Scripts/BoardManager.cs:103-116 | after sowing, the start pit holds only the stones that lapped back to it, and every other pit holds its old count plus the laps that reach it |
| Board.CaptureChain | src/Assets/Scripts/BoardManager.cs:154-172 | the capture chain terminates, because each capture empties a stone-holding pit; captured stones plus the board's stones equal the old board's; every pit is unchanged or emptied; with an empty pit and a stone-holding pit after it, at least one capture happens, that pit is emptied and at least its stones are taken; otherwise nothing happens, with no capture counted and the chain stopped where it began |
| Board.CaptureChainStops | src/Assets/Scripts/BoardManager.cs:154-172 | the chain stops two pits further on per capture, and only where the loop's condition fails: on the board it leaves, the pit it stopped at is not empty or the pit after it holds no stone |
| Board.CaptureChainTakes | src/Assets/Scripts/BoardManager.cs:154-172 | the chain empties exactly the pit after each of its hops, and every other pit keeps its count |
| Board.CaptureChainHops | src/Assets/Scripts/BoardManager.cs:154-172 | at each hop the chain made, the pit was empty and the pit after it held stones on the board it started from |
| Board.RowEmpty | src/Assets/Scripts/BoardManager.cs:184-201 | the scan of a row finds no move exactly when no pit of the row holds a stone |
| Board.IsTerminal | src/Assets/Scripts/BoardManager.cs:178-207 | the game is over if and only if pits 1..5 hold no stone, or pits 7..11 hold none, or both granaries are empty; CheckEndGameSim (lines 351-380) is the same test |
| Cards.DrawCardAsWritten | src/Assets/Scripts/BoardManager.cs:482-488 | as written, a draw of at most 50 gives ReverseTurn and a draw in 51..76 gives SkipTurn, both if and only if |
| Cards.DrawCard | src/Assets/Scripts/BoardManager.cs:482-488 | corrected, a draw of at most 50 gives ReverseTurn and a draw in 51..75 gives SkipTurn, both if and only if |
| Cards.TallyClosedForm | src/Assets/Scripts/BoardManager.cs:484-487 | among draws 1..k there are min(k, 50) reverses, the skips up to the skip bound, and the rest extras |
| Cards.DrawCardAsWrittenSplit | src/Assets/Scripts/BoardManager.cs:484-487 | as written, the 100 draws give 50 reverses, 26 skips and 24 extras, and draw 76 is a skip |
| Cards.DrawCardSplit | src/Assets/Scripts/BoardManager.cs:484-487 | corrected, the 100 draws give 50 reverses, 25 skips and 25 extras, as the comments promise |
| Rules.Initial | src/Assets/Scripts/BoardManager.cs:55-86 | a new game has ten stones in each granary and five in every other pit, 70 in all, and both scores are 0; it is not over; the player has one move, play goes forward and no card is held |
| Rules.InitialSum | src/Assets/Scripts/BoardManager.cs:69-81 | ten stones in each granary and five in each other pit make 70 |
| Rules.Credit | src/Assets/Scripts/BoardManager.cs:157-166 | captured stones go to the player's score while the player has moves left and to the computer's otherwise; the other score, the board, the turn count, the direction and the card are unchanged, and the total grows by exactly the stones credited |
| Rules.Capture | src/Assets/Scripts/BoardManager.cs:154-172 | a capture chain credits the stones it takes to the player during the player's turn and to the computer otherwise; the other score and the turn fields are unchanged; the total is conserved |
| Rules.CaptureTakes | src/Assets/Scripts/BoardManager.cs:154-172 | a capture empties exactly the pits its chain takes, leaves every other pit as it was, and ends only where no further capture is possible |
| Rules.Settle | src/Assets/Scripts/BoardManager.cs:117-174 | after the stones run out: a last stone in a granary on the player's turn with no card held draws a card and ends the move; otherwise a granary next ends the move, a stone-holding next pit resumes sowing from it, and an empty one runs the capture chain; every outcome satisfies MoveEffect, and sowing resumes only from a stone-holding pit that is not a granary |
| Rules.Pass | src/Assets/Scripts/BoardManager.cs:103-174 | one round of the sowing loop satisfies MoveEffect, and it resumes only from a stone-holding pit that is not a granary |
| Rules.Move | src/Assets/Scripts/BoardManager.cs:96-176 | a whole move that ends within the fuel bound satisfies MoveEffect; a move that stops in its first round returns that round's state |
| Rules.Sweep | src/Assets/Scripts/BoardManager.cs:209-233 | the final sweep leaves every pit empty and conserves the total; with no negative pit neither score goes down; the turn, direction and card are unchanged |
| Rules.FinalScores | src/Assets/Scripts/BoardManager.cs:209-226 | the two loops of CalculateFinalScores compute exactly the closed-form sweep: pits 0..5 go to the player and pits 6..11 to the computer |
| Search.SimulateMove | src/Assets/Scripts/BoardManager.cs:402-435 | a simulated move never changes the computer's score or the turn flag and never lowers the player's score; from a board with no negative pit it makes no pit negative and conserves the board plus the player's score |
| Search.SimulateMoveSows | src/Assets/Scripts/BoardManager.cs:402-432 | every pit after a simulated move holds 0 if the capture chain from the pit after the last stone took it, and otherwise exactly the live count (0 for the sown pit) plus one stone per lap of the sowing that reaches it |
| Search.Potential | src/Assets/Scripts/BoardManager.cs:292-306 | no contract of its own; specified by Search.RowPotentialMirror and Search.RowPotentialBounds |
| Search.RowPotential | src/Assets/Scripts/BoardManager.cs:292-306 | no contract of its own; specified by Search.RowPotentialMirror and Search.RowPotentialBounds |
| Search.Evaluate | src/Assets/Scripts/BoardManager.cs:276-310 | no contract of its own; specified by Search.EvaluateMirror and Search.EvaluateBounds |
| Search.RowPotentialMirror | src/Assets/Scripts/BoardManager.cs:292-306 | the capture potential of a run of pits on the mirrored board is that of the facing run on the original board, in both rows |
| Search.EvaluateMirror | src/Assets/Scripts/BoardManager.cs:276-310 | the heuristic is zero-sum: swapping the rows and the scores negates it |
| Search.RowPotentialBounds | src/Assets/Scripts/BoardManager.cs:292-306 | with no negative pit, the capture potential of k pits lies between 0 and k times the stones on the board |
| Search.SideBounds | src/Assets/Scripts/BoardManager.cs:281-306 | one side's stones plus its capture potential lie between 0 and six times the stones on the board |
| Search.EvaluateBounds | src/Assets/Scripts/BoardManager.cs:276-310 | the heuristic is within six times the board's stones of the score difference |
| Search.Minimax | src/Assets/Scripts/BoardManager.cs:312-349 | no contract of its own; specified by Search.AlphaBetaSound against the unpruned Search.Value, and by Search.SearchExact |
| Search.MaxOver | src/Assets/Scripts/BoardManager.cs:317-332 | no contract of its own; specified by Search.MaxOverSound |
| Search.MinOver | src/Assets/Scripts/BoardManager.cs:333-348 | no contract of its own; specified by Search.MinOverSound |
| Search.MaxAllAtLeast | src/Assets/Scripts/BoardManager.cs:319-331 | the maximum over the computer's moves is at least the running maximum |
| Search.MinAllAtMost | src/Assets/Scripts/BoardManager.cs:335-347 | the minimum over the player's moves is at most the running minimum |
| Search.AlphaBetaSound | src/Assets/Scripts/BoardManager.cs:312-349 | for every window inside the 32-bit range, alpha-beta returns the plain minimax value when that value lies strictly inside the window, and a value on the same side of the window when it does not |
| Search.MaxOverSound | src/Assets/Scripts/BoardManager.cs:317-332 | while the loop keeps its window invariant (MaxKeeps: alpha is the initial floor raised by the best so far, and the pruned and unpruned bests agree above that floor), the computer's pruned loop brackets the unpruned maximum in the window, break included |
| Search.MinOverSound | src/Assets/Scripts/BoardManager.cs:333-348 | while the loop keeps its window invariant (MinKeeps, the mirror of MaxKeeps), the player's pruned loop brackets the unpruned minimum in the window, break included |
| Search.ChildBounds | src/Assets/Scripts/BoardManager.cs:402-435 | a simulated move from a board with no negative pit holds at most the live board's stones and adds at most that many to the player's score |
| Search.ValueBounds | src/Assets/Scripts/BoardManager.cs:312-349 | every plain minimax value lies between minus (the player's score bound plus six times the live stones) and the computer's score plus six times the live stones |
| Search.ValueInRange | src/Assets/Scripts/BoardManager.cs:312-349 | from a snapshot whose stones and scores are small enough for the depth, every plain minimax value lies strictly between int.MinValue and int.MaxValue |
| Search.SearchExact | src/Assets/Scripts/BoardManager.cs:312-349 | from such a snapshot, the search with the full window (int.MinValue, int.MaxValue) returns exactly the plain minimax value, at every depth and for either side |
| Search.Root | src/Assets/Scripts/BoardManager.cs:446-446 | no contract of its own; the snapshot after candidate pit i, from a fresh snapshot of the live board with both scores, as BoardManager builds it; specified through Search.MoveValueExact and Search.BestMoveOptimal |
| Search.MoveValue | src/Assets/Scripts/BoardManager.cs:446-447 | no contract of its own; the depth-3 full-window search of that snapshot; specified by Search.MoveValueExact and Search.BestMoveOptimal |
| Search.RootValue | src/Assets/Scripts/BoardManager.cs:446-447 | no contract of its own; the plain minimax value of that snapshot, the reference Search.MoveValueExact and Search.BestMoveOptimal compare against |
| Search.MoveValueExact | src/Assets/Scripts/BoardManager.cs:446-447 | at every search depth, under NoOverflow, the pruned search of a candidate equals its plain minimax value |
| Search.ScanMoves | src/Assets/Scripts/BoardManager.cs:442-455 | the candidate loop ends with a stone-holding pit of 7..11 whose value is the greatest, the lowest such pit on ties, or with -1 and int.MinValue |
| Search.BestMove | src/Assets/Scripts/BoardManager.cs:439-457 | the computer picks a stone-holding pit of 7..11 with the greatest search value, the lowest on ties; it picks -1 exactly when no candidate's value beats int.MinValue |
| Search.BestMoveGivesUp | src/Assets/Scripts/BoardManager.cs:439-463 | under NoOverflow, the computer gives up (-1) if and only if pits 7..11 are all empty |
| Search.BestMoveOptimal | src/Assets/Scripts/BoardManager.cs:439-456 | under NoOverflow, the pick maximises the plain minimax value, so pruning never changes the choice |
| Turns.Finish | src/Assets/Scripts/BoardManager.cs:253-259 | ending the game empties every pit, conserves stones, does not lower either score, and keeps the direction and the card |
| Turns.Pick | src/Assets/Scripts/BoardManager.cs:439-457 | the computer's pick on the live state is -1 or a stone-holding pit of 7..11 |
| Turns.Reply | src/Assets/Scripts/BoardManager.cs:457-480 | the result is Replies: with no pick (-1) the board is swept at once; otherwise the pick is played with Rules.Move, a move out of fuel stalls, a move that leaves a terminal board is followed by the sweep, and any other move gives the player one more move; hence the direction is kept and stones are conserved |
| Turns.ComputerMove | src/Assets/Scripts/BoardManager.cs:437-480 | the result is ComputerReplies: the reply (Turns.Reply's Replies) to the pit Turns.Pick chooses with Search.BestMove at depth 3; an empty computer row sweeps the board at once; during the computer's turn the player's score and the card are untouched; stones are conserved |
| Turns.PlayerMove | src/Assets/Scripts/BoardManager.cs:235-274 | the result is PlayerMoves: the move is refused, with the state unchanged, exactly when the pit is empty; otherwise the pit is played with Rules.Move, and a move out of fuel stalls; the move's state then goes on as PlayerFollows says: the sweep if the board is over, else one move fewer for the player, and once none is left the computer's reply to it (ComputerReplies); stones are conserved; the card changes only by a draw into an empty slot |
| Turns.SelectPit | src/Assets/Scripts/BoardManager.cs:88-93 | the result is Selects: a click is ignored, with the state unchanged, unless it is on pits 1..5 (the check in src/Assets/Scripts/Cell.cs at line 60) while the player has a move; an accepted click is the player's move on that pit (PlayerMoves) |
| Turns.Discard | src/Assets/Scripts/BoardManager.cs:533-533 | using a card keeps the kind of outcome (refused, going on, finished, stalled), clears the card slot and changes nothing else |
| Turns.UseCard | src/Assets/Scripts/BoardManager.cs:491-536 | the result is UsesCard: with no card, or during the computer's turn, nothing changes; ReverseTurn only flips the direction and ExtraTurn only adds a move; SkipTurn sets the player's moves to 0 and the result is the computer's reply (ComputerReplies) with the card discarded, after which the player again has one move and the same score; every accepted use clears the card and conserves stones |
| Turns.Act | src/Assets/Scripts/BoardManager.cs:88-93 | a click is a pit selection (Selects) and a card use is UseCard's UsesCard; a refused action changes nothing; an action that leaves the game going leaves the player at least one move; a finished game has every pit empty |
| Turns.Run | src/Assets/Scripts/BoardManager.cs:88-93 | over any sequence of clicks and card uses, stones are conserved and no score goes down; a game that starts and goes on with the player to move still leaves the player to move; a finished game has every pit empty |

## Left out

- User interface: highlighting, notices, the game-over panel, animations, sounds and `Debug.Log` are not modelled. Button interactability is not modelled either, except the rule that only pits 1..5 respond to clicks.
- Coroutine timing and re-entrancy: `WaitForSeconds`, `yield`, `canUseCard`, `cardMutex` and `isCoroutineRunning` are left out. Each click or card use is one atomic step, so a card cannot be used while a move is running.
- `Random.Range`: the 1..100 draw is an input (`draw`). The choice between drawing and sowing on (line 126) is always "draw", as in BoardManager.
- Rules.Move: the sowing loop `while (true)` has no termination measure in BoardManager. The model runs at most `fuel` rounds and returns `None` (or `Stalled` in the turn layer) when fuel runs out. Whether every move terminates is not proved.
- Rules.Settle: draws with the corrected Cards.DrawCard, so draw 76 gives ExtraTurn; as written (BoardManager.cs:486) draw 76 gives SkipTurn. The as-written draw is Cards.DrawCardAsWritten, and the discrepancy is the finding below.
- Rules.Pass: its MoveEffect contract names the card drawn with the corrected Cards.DrawCard, as for Rules.Settle.
- Rules.Move: its MoveEffect contract names the card drawn with the corrected Cards.DrawCard, as for Rules.Settle.
- Turns.PlayerMove: its card clause, and the moves it reaches through Rules.Move (in Turns.SelectPit, Turns.Act, Turns.Reply and Turns.ComputerMove too), draw with the corrected Cards.DrawCard, as for Rules.Settle.
- Search.BestMoveGivesUp and Search.BestMoveOptimal assume NoOverflow. Scores and counts are unbounded integers here, while BoardManager uses 32-bit `int`; beyond those bounds its arithmetic would wrap, and the model does not model that.
- Search.MoveValueExact, Search.SearchExact and Search.ValueInRange assume bounded stones and scores for the same reason.
- `GUIManager.cs`, `Cell.cs` (apart from the click check), `Camera.cs` and `BackgroundMusicManager.cs` are not part of this model: they hold UI, rendering and audio.
- The vendored Unity cloud-build editor package under `src/Library/PackageCache` is not part of this model: it holds HTTP clients, editor windows and DTOs unrelated to the game.

## Findings

| source | as written | input that shows it | evidently intended | confidence | as-written member | corrected member |
|---|---|---|---|---|---|---|
| src/Assets/Scripts/BoardManager.cs:486 | `randomValue <= 76` sends draws 51..76 to SkipTurn: 26 of 100 skips and 24 extras | draw 76 gives SkipTurn | `<= 75`, giving the 25% skip and 25% extra that the comments on lines 486-487 state | medium, not executed | Cards.DrawCardAsWrittenSplit | Cards.DrawCardSplit |

The rest of the model draws with the corrected `Cards.DrawCard`.

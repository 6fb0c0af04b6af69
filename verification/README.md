# Yahtzee, modelled in Dafny

This project models the core of a Yahtzee implementation. The pieces are:

- **The rules engine.** Categories, dice, the scoring of five faces, and the write-once scorecard with its upper bonus. Rolling, holding and scoring for one player and for several players. The Yahtzee bonus and the joker rule.
- **The exact dice tables.** The 252 sorted dice combinations, their roll weights, the score table, the distinct holds of a combination, the reroll transition table, and the backward-induction value of each category.
- **The strategies.** How a hold action is applied, a whole turn and a whole game under any strategy, the legality of the random strategy, and the deterministic greedy strategy.
- **The game coordinator.** The frame-driven state machine with its speed presets, the roll animation, the turn transition, the AI pauses and the snapshot undo stack.
- **The frontend adapter.** Overlays, the zero-score confirmation, keyboard navigation over the category rows, history filters, preferences, the once-per-game score save and the per-frame update.
- **The game log.** It is append-only, with turn and score filters.
- **The web server's action handler.** A JSON message becomes an adapter call, behind a guard on each argument.
- **The score history and the settings store.** Each is kept in a file; the model treats the file's contents as a value.

Dice are `seq<int>` faces in 1..6. Randomness is a parameter: every roll takes the faces the caller supplies for the unheld dice. Files are values of a `Stored` datatype. The clock's date is a string parameter. A strategy is a function parameter. Probabilities are exact: integer weights over `6^k`, and expected values as `real`.

`game_engine.py` defines no `roll_dice`, `toggle_die_hold`, `select_category`, `calculate_score_in_context` or `mp_*` functions, although `test_game_engine.py` imports them; its text ends at `GameState.create_initial`. The model follows `test_game_engine.py` for those transitions. Other places where the files disagree with each other:

- The `Scorecard` class in `game_engine.py` has no Yahtzee bonus count, and its grand total is three terms. The tests, and the coordinator, count bonus Yahtzees and add 100 for each. The model follows the tests (`Scorecards.GrandTotal`) and keeps the three-term total as `Scorecards.ShownGrandTotal`.
- `score_history.py` has no `get_recent_scores_filtered`, although `frontend_adapter.py:17` imports it. The history filters that use it are not part of this model.
- `game_coordinator.py:489` sets `ai_reason` from `action.reason`, but `RollAction` and `ScoreAction` in `ai.py:26-35` have no `reason` field, while `test_game_coordinator.py:409-415` expects a non-empty reason. `Coordinators.TickAi` models the AI path as if that read succeeds, and the reason text is left out.

## Model

| member | source | states |
|---|---|---|
| Categories.Index | game_engine.py:14-28 | the thirteen categories are in enum order and each has one position |
| Categories.AllCategoriesDistinct | game_engine.py:14-28 | the category list has thirteen distinct entries and contains every category |
| Categories.Face | game_engine.py:216-227 | the upper category for face f is the f-th category, with f in 1..6 |
| Categories.UpperFor | game_engine.py:216-227 | every face 1..6 has an upper category, whose face it is |
| Categories.NamesInjective | game_engine.py:14-28 | no two categories share a display name |
| Dice.SumByFaces | game_engine.py:97-111 | the sum of the faces equals the count of each face times that face, and the face counts add up to the number of dice |
| Dice.SumPermutation | game_engine.py:211-214 | the sum of the dice does not depend on their order |
| Dice.SumBounds | game_engine.py:253-255 | n dice sum to between n and 6n |
| Dice.RollDie | game_engine.py:266-270 | a held die keeps its value and its hold; an unheld die takes the new face and stays unheld |
| Dice.ToggleDie | game_engine.py:272-274 | toggling flips the hold and keeps the value |
| Dice.ToggleDieInvolution | game_engine.py:272-274 | toggling twice restores the die |
| Scoring.Distinct | game_engine.py:158-162 | the distinct faces, each once, as a sequence |
| Scoring.MaxOf | game_engine.py:125-127 | the largest count, which is attained |
| Scoring.SortDesc | game_engine.py:142-144 | the face counts sorted in descending order, as a permutation |
| Scoring.CalculateScore | game_engine.py:198-257 | an upper category scores its face times its count; Chance scores the sum; the fixed-value categories score their value or 0 |
| Scoring.NOfKindIff | game_engine.py:114-127 | at least n of a kind holds iff some face occurs at least n times |
| Scoring.FullHouseIff | game_engine.py:130-144 | a full house holds iff one face occurs exactly three times and another exactly twice |
| Scoring.RunSetIff | game_engine.py:165-180 | five dice forming a run have exactly that run as their face set |
| Scoring.LargeStraightIff | game_engine.py:165-180 | Large Straight scores 40 iff the face set is {1..5} or {2..6} |
| Scoring.YahtzeeIff | game_engine.py:183-195 | Yahtzee scores 50 iff all five faces are equal |
| Scoring.ScoreOrderIndependent | game_engine.py:198-257 | every category's score is the same for any ordering of the dice |
| Scoring.OfKindScores | game_engine.py:229-235 | 3 and 4 of a kind score the sum iff some face occurs at least 3 or 4 times, and 0 otherwise |
| Scoring.ScoreBounds | game_engine.py:198-257 | every score lies in 0..50 |
| Scoring.FourOfKindIsNoFullHouse | game_engine.py:130-144 | four or five of a kind is not a full house |
| Scoring.FiveOfKindScores | game_engine.py:229-247 | five of a kind counts as 3 and 4 of a kind and as Chance, and scores 0 as a full house or a straight |
| Scoring.LargeImpliesSmall | game_engine.py:147-180 | every large straight also scores 30 as a Small Straight |
| Scoring.UpperScoresSumToChance | game_engine.py:216-227 | the six upper scores of a roll add up to its Chance score |
| Scorecards.Empty | game_engine.py:34-37 | a new card has no category filled and no bonus Yahtzee |
| Scorecards.WithScore | game_engine.py:89-94 | a filled category is never overwritten; an open one takes the value; every other category is unchanged |
| Scorecards.UpperBonus | game_engine.py:58-60 | the bonus is 35 iff the upper section totals at least 63, and 0 otherwise |
| Scorecards.GrandTotal | test_game_engine.py:1056-1061 | the grand total is the sum of every filled category's score, plus the upper bonus, plus 100 per bonus Yahtzee; it is also the three-term total plus 100 per bonus Yahtzee |
| Scorecards.Unfilled | game_engine.py:39-41 | exactly the categories of the list that are not filled |
| Scorecards.CompleteIffNoneOpen | game_engine.py:79-81 | a card is complete iff no category is open |
| Scorecards.SectionsAfterUpperScore | game_engine.py:48-56 | scoring an open upper category adds its value to the upper total and leaves the lower total |
| Scorecards.SectionsAfterLowerScore | game_engine.py:62-71 | scoring an open lower category adds its value to the lower total and leaves the upper total |
| Scorecards.GrandTotalAfterWithScore | game_engine.py:73-77 | scoring an open category raises the grand total by its value plus any bonus the upper section newly earns |
| Scorecards.OpenAfterWithScore | game_engine.py:89-94 | scoring an open category closes exactly one category |
| Scorecards.GrandTotalNonNegative | test_game_engine.py:921-926 | the grand total of non-negative scores is never negative |
| Engine.CreateInitial | game_engine.py:286-296 | a new game has five unheld dice, no rolls used, round 1, an empty card, and is not over |
| Engine.RollDice | test_game_engine.py:174-242 | with rolls left and the game going on, held dice keep value and hold, unheld dice take the new faces, and one more roll is used; otherwise nothing changes |
| Engine.ToggleDieHold | test_game_engine.py:258-345 | before the first roll, after game over, or with an index outside 0..4 nothing changes; otherwise only die i's hold flips |
| Engine.RecordScore | test_game_engine.py:1018-1080 | the in-context score goes into an open category, and the bonus count rises by one exactly when a further Yahtzee is scored with 50 in Yahtzee |
| Engine.SelectCategory | test_game_engine.py:365-449 | without a roll, after game over, or on a filled category nothing changes; otherwise the score is recorded, the rolls reset, the dice are released and the round advances unless the card is now complete |
| Engine.JokerScores | test_game_engine.py:1083-1182 | under the joker rule Full House scores 25, Small Straight 30 and Large Straight 40; outside it the in-context score is the plain score |
| Engine.InContextBounds | test_game_engine.py:1083-1182 | the in-context score is at least the plain score and at most 50 |
| Engine.RollPreservesValid | test_game_engine.py:174-242 | rolling keeps a valid state valid |
| Engine.TogglePreservesValid | test_game_engine.py:258-345 | holding keeps a valid state valid |
| Engine.RecordScoreClosesOne | test_game_engine.py:381-412 | recording into an open category closes exactly one category |
| Engine.SelectPreservesValid | test_game_engine.py:365-449 | scoring keeps a valid state valid |
| Engine.ValidBounds | test_game_engine.py:897-1003 | in a valid state rolls used lie in 0..3 and the round in 1..13, and the game is over iff the card is complete |
| Engine.GameOverFreezes | test_game_engine.py:928-940 | after game over, rolling, holding and scoring change nothing |
| Engine.OpenCategoriesEndGame | test_game_engine.py:993-1003 | scoring every open category once, in any order, ends the game with a complete card |
| Engine.FullGameEnds | test_game_engine.py:899-912 | thirteen turns from a new game, one per category, end the game with a complete card |
| Multiplayer.MpCreateInitial | test_game_engine.py:1245-1301 | a new game of n players has n empty cards, player 0 to act, no rolls used, round 1, and is not over |
| Multiplayer.MpRollDice | test_game_engine.py:1425-1473 | the multiplayer roll is the single-player roll on the shared dice |
| Multiplayer.MpToggleDieHold | test_game_engine.py:1475-1497 | the multiplayer hold is the single-player hold, with the same refusals |
| Multiplayer.NextPlayer | test_game_engine.py:1303-1337 | the turn passes to the next player, and to player 0 after the last |
| Multiplayer.NextPlayerModulo | test_game_engine.py:1303-1337 | the next player is the acting player plus one, modulo the number of players |
| Multiplayer.MpSelectCategory | test_game_engine.py:1303-1423 | only the acting player's card changes; the turn passes on; the round advances only on the wrap to player 0; the game is over iff every card is complete |
| Multiplayer.MpSelectAsSingle | test_game_engine.py:1185-1243 | the acting player's card and the dice change exactly as in a single-player scoring, joker and bonus included |
| MultiplayerProofs.MpInitialValid | test_game_engine.py:1245-1301 | a new multiplayer game satisfies the invariant |
| MultiplayerProofs.TotalOpenZero | test_game_engine.py:1537-1580 | no category is open on any card iff every card is complete |
| MultiplayerProofs.MpSelectPreservesValid | test_game_engine.py:1303-1423 | scoring keeps a valid multiplayer state valid |
| MultiplayerProofs.MpRollPreservesValid | test_game_engine.py:1425-1473 | rolling keeps a valid multiplayer state valid |
| MultiplayerProofs.MpTogglePreservesValid | test_game_engine.py:1475-1497 | holding keeps a valid multiplayer state valid |
| MultiplayerProofs.MpScoringClosesOne | test_game_engine.py:1537-1580 | a scoring closes one category over all the cards, and the game is over iff none is left open |
| MultiplayerProofs.MpGameOverFreezes | test_game_engine.py:1582-1597 | after game over, multiplayer rolling, holding and scoring change nothing |
| MultiplayerProofs.MpValidBounds | test_game_engine.py:1339-1370 | in a valid multiplayer state the round lies in 1..13 |
| Combos.SortAsc | dice_tables.py:109-113 | the faces sorted ascending, as a permutation |
| Combos.SortIsCombo | dice_tables.py:25-27 | sorting five faces gives a combination with the same face counts |
| Combos.CombosSound | dice_tables.py:25 | every generated combination is a sorted tuple of the right length over the faces from the lower bound to 6 |
| Combos.CombosDistinct | dice_tables.py:25 | the generated combinations are pairwise distinct |
| Combos.ComboIndex | dice_tables.py:27 | every sorted five-dice tuple is in `ALL_COMBOS`, at the position the index gives |
| Combos.AllCombosAreCombos | dice_tables.py:25 | `ALL_COMBOS` lists distinct sorted five-dice tuples only |
| Combos.ComboIndexInverse | dice_tables.py:27 | the index of the i-th combination is i |
| Combos.ProductsSize | dice_tables.py:111 | there are 6^k ordered rerolls of k dice, each k valid faces |
| Combos.ProductsComplete | dice_tables.py:111 | every ordered reroll of k dice is enumerated |
| DiceTables.WeightCountsRolls | dice_tables.py:32-42 | the multinomial weight 5!/(n1!·…·nk!) of a combination is the number of ordered rolls of five dice that show exactly its faces |
| Multinomial.ArrangementsFactorials | dice_tables.py:36-41 | the number of orderings of a multiset of k faces, times the product of the factorials of its face counts, is k! |
| Multinomial.ProductsShowing | dice_tables.py:32-42 | among the ordered rolls of k dice, the number showing a given multiset of faces is the number of its orderings |
| Transitions.WeightIsWays | dice_tables.py:32-44 | a combination's weight is the number of ordered rolls of the empty hold that land on it |
| Transitions.RollProbabilityIsShare | dice_tables.py:32-44 | a combination's probability is its share of the empty hold's 6^5 equally likely ordered rolls |
| Transitions.WeightsSum | dice_tables.py:44 | the weights of all combinations add up to 6^5, so `COMBO_PROBS` sums to 1 |
| DiceTables.WeightFiveOfKind | dice_tables.py:32-42 | five ones have weight 1 |
| DiceTables.WeightOnePair | dice_tables.py:32-42 | (1,1,2,3,4) has weight 60 |
| DiceTables.WeightStraight | dice_tables.py:32-42 | (2,3,4,5,6) has weight 120 |
| DiceTables.ScoreRow | dice_tables.py:51-58 | a row has thirteen cells, and the cell at a category's enum position holds that category's score of the combination |
| DiceTables.RowLookup | dice_tables.py:51-60 | `SCORE_TABLE[i][j]` is the score of the j-th category for the i-th combination of `ALL_COMBOS` |
| DiceTables.ScoreTableLookup | dice_tables.py:51-60 | looking up the sorted roll and the category's column gives the roll's score |
| DiceTables.FromBitsRoundTrip | dice_tables.py:79-81 | every choice of dice is the bit pattern of some mask below 2^n |
| DiceTables.UniqueHoldsIff | dice_tables.py:65-82 | a tuple is among the holds of a combination iff it is sorted and a sub-multiset of it |
| DiceTables.HoldMask | dice_tables.py:79-81 | every hold of a combination comes from a mask below 32 |
| DiceTables.HoldsIncludeNoneAndAll | dice_tables.py:65-82 | the holds always include the empty hold and the whole combination |
| Transitions.ResultFaces | dice_tables.py:112-114 | a hold plus a reroll lands on the combination holding both sets of faces |
| Transitions.TransitionTotal | dice_tables.py:111-118 | the outcome weights of a hold add up to 6^(5 - held), so the probabilities add up to 1 |
| Transitions.TransitionShape | dice_tables.py:111-120 | outcome indices are distinct, weights positive, and every outcome contains the held faces |
| Transitions.TransitionWays | dice_tables.py:111-118 | an outcome's weight is the number of ordered rerolls that land on it |
| Transitions.TransitionSupport | dice_tables.py:104-120 | a combination is an outcome of a hold iff it contains the held faces |
| Transitions.HoldAllCertain | dice_tables.py:104-109 | holding five dice yields the held combination with certainty |
| Transitions.HoldNoneReachesAll | dice_tables.py:111-120 | holding nothing reaches every one of the combinations |
| CategoryEv.ExpectAbove | dice_tables.py:149-150 | a weighted sum of values at least lo is at least lo times the total weight |
| CategoryEv.ExpectBelow | dice_tables.py:149-150 | a weighted sum of values at most hi is at most hi times the total weight |
| CategoryEv.HoldEVWithin | dice_tables.py:149-150 | the expected value of a hold lies between the bounds of the values it averages |
| CategoryEv.HoldEVMono | dice_tables.py:149-150 | larger values give a larger expected value for every hold |
| CategoryEv.Roll3IsScore | dice_tables.py:141-142 | the roll-3 value of a roll's combination is the roll's score |
| CategoryEv.BestOfIsMax | dice_tables.py:147-152 | the running best is at least the start and every candidate, and is one of them |
| CategoryEv.MaskEVIsHold | dice_tables.py:148-150 | each mask's expected value is that of a hold of the combination |
| CategoryEv.HoldIsMaskEV | dice_tables.py:148-150 | every hold of a combination is weighed under some mask |
| CategoryEv.Roll2IsBest | dice_tables.py:144-153 | the roll-2 value is at least the immediate score and every hold's expected value, and equals one of them |
| CategoryEv.Roll2Within | dice_tables.py:144-153 | every roll-2 value lies in 0..50 |
| CategoryEv.CategoryEVWithin | dice_tables.py:155-157 | a category's expected value lies in 0..50 |
| CategoryEv.CategoryEVAtLeastFirstRoll | dice_tables.py:142-157 | a category's expected value is at least the expected score of one roll, so it is never below the worst case |
| Ai.ApplyHoldsFrom | ai.py:58-69 | from die i on, a die is held iff its index is requested; earlier dice and every face are untouched |
| Ai.ApplyHolds | ai.py:58-69 | after a roll, die i is held iff i is requested and no face changes; before a roll or after game over nothing changes |
| Ai.HoldsAlreadyApplied | ai.py:58-69 | applying the holds the dice already show changes nothing |
| Ai.ApplyHoldsPreservesValid | ai.py:58-69 | applying holds keeps a valid state valid |
| Ai.TurnLoopFillsOne | ai.py:72-101 | a turn ends with no rolls used and exactly one more category filled |
| Ai.PlayTurnFillsOne | ai.py:72-101 | `play_turn` rolls first and ends with exactly one newly filled category |
| Ai.PlayTurns | ai.py:104-116 | turn after turn keeps the state valid, between turns |
| Ai.PlayTurnsEnds | ai.py:104-116 | playing one turn per open category ends the game with a complete card |
| Ai.PlayGameEnds | ai.py:104-116 | `play_game` from a new game ends over, with a complete card |
| Ai.HeldByCoins | ai.py:128-139 | the random holds are exactly the ascending indices whose coin came up |
| Ai.RandomLegal | ai.py:128-162 | the random strategy scores when no roll is left, scores only an open category, and rolls only with a well-formed hold |
| Greedy.FirstMax | ai.py:253-265 | the first position of the maximum: nothing is larger, and everything before it is smaller |
| Greedy.FirstHit | ai.py:188-220 | the first good score that hits; none before it hits |
| Greedy.CheckGoodScoresFirst | ai.py:188-220 | `_check_good_scores` answers the first open category of the fixed order whose score meets its bar, or nothing when none does |
| Greedy.YahtzeeTakenFirst | ai.py:188-195 | five of a kind with Yahtzee open is scored as Yahtzee |
| Greedy.FirstWindow | ai.py:227-231 | the first small-straight window that shares at least three faces with the dice |
| Greedy.StraightHoldFrom | ai.py:232-239 | the first die of each face in the window is held, in ascending order |
| Greedy.FaceHoldFrom | ai.py:241-244 | every die showing the face is held, in ascending order |
| Greedy.MostCommonIsMost | ai.py:241-242 | the most common face has the largest count, and on a tie it appears first in dice order |
| Greedy.ChooseHoldsShape | ai.py:222-244 | the hold is well formed; with a window it is the first die of each window face, otherwise every die of the most common face |
| Greedy.FirstOpen | ai.py:291-294 | the first open category of a list; all before it are filled |
| Greedy.WasteIsFirstOpen | ai.py:273-294 | the waste category is open and is the first open one of the fixed waste order |
| Greedy.BestScoreOpen | ai.py:246-271 | `_best_score` picks an open category |
| Greedy.BestScoreWastes | ai.py:267-269 | when every open category scores 0, the waste order decides |
| Greedy.BestScoreIsBest | ai.py:246-271 | when some open category scores above 0, no open category has a larger adjusted score (its score, plus 5 for an upper category on target), and ties go to the earliest in enum order |
| Greedy.AdjustedAtLeastScore | ai.py:256-261 | the adjusted score is the category's score or 5 more, and it is 5 more exactly for an upper category with at least three dice of its face |
| Greedy.OpenInOrder | ai.py:248 | the open categories are listed in enum order |
| Greedy.GreedyLegal | ai.py:175-186 | greedy scores when no roll is left, scores only an open category, and rolls only with a well-formed hold |
| Greedy.GreedyScoresOpen | ai.py:175-186 | greedy never asks to score a filled category |
| Greedy.GreedyGameEnds | ai.py:104-116 | a game played by greedy ends over, with a complete card |
| Coordinators.Preset | game_coordinator.py:54-58 | every speed's AI delay, roll duration and hold-show pause are positive frame counts |
| Coordinators.SpeedIndex | game_coordinator.py:59 | each speed's position in the slowest-first list of names |
| Coordinators.GameRoll | game_coordinator.py:279-299 | a roll keeps the game well formed and uses one more roll when allowed |
| Coordinators.GameSelect | game_coordinator.py:309-341 | scoring keeps the game well formed, changes nothing when refused, and resets the rolls otherwise |
| Coordinators.MpApplyHoldsAsSingle | game_coordinator.py:491-505 | the multiplayer hold loop acts on the acting player's view exactly as the single-player one |
| Coordinators.NewGame | game_coordinator.py:78-91 | a new game has no rolls used, player 0 to act, round 1, the supplied faces, and is not over |
| Coordinators.Create | game_coordinator.py:69-123 | a new coordinator is well formed with an empty undo stack and log, no roll animating, the AI's first roll due, and the turn overlay up in multiplayer |
| Coordinators.PushUndo | game_coordinator.py:209-230 | a snapshot is pushed on a human's turn and nothing on an AI's; nothing else changes |
| Coordinators.Undo | game_coordinator.py:232-265 | undo succeeds iff `can_undo`; otherwise nothing changes; on success the newest snapshot is popped, its game restored and the log cut back to its length |
| Coordinators.RollDiceAction | game_coordinator.py:279-299 | while a roll animates or the engine refuses one nothing changes; otherwise a human turn pushes a snapshot and the animation starts with the rolled game pending |
| Coordinators.ToggleHold | game_coordinator.py:301-307 | a toggle pushes a snapshot (on a human turn, even when the engine ignores it) and changes only the game |
| Coordinators.OnTurnScored | game_coordinator.py:530-548 | single-player returns at once; multiplayer clears the undo stack and the AI state, and raises the turn overlay iff the game goes on |
| Coordinators.Score | game_coordinator.py:318-338 | scoring records the category, logs the in-context score with the dice and the turn, and changes nothing else |
| Coordinators.SelectCategoryAction | game_coordinator.py:309-341 | refused scores change nothing; a score appends one log entry; single-player keeps the pushed snapshot, multiplayer empties the stack |
| Coordinators.ResetGame | game_coordinator.py:350-372 | reset starts a fresh game with the same players and speed, and empties the undo stack and the log |
| Coordinators.ChangeSpeed | game_coordinator.py:374-387 | a step succeeds iff it stays within slow..fast; it then takes all three timings from the new preset; otherwise nothing changes |
| Coordinators.Tick | game_coordinator.py:389-514 | one frame keeps the coordinator well formed and the players the same |
| CoordinatorProofs.ChangeSpeedUndoes | game_coordinator.py:374-387 | a step and the opposite step restore the coordinator |
| CoordinatorProofs.SpeedEnds | game_coordinator.py:374-387 | fast refuses to go faster and slow refuses to go slower; from normal both steps take the neighbouring preset |
| CoordinatorProofs.RollingTicks | game_coordinator.py:403-419 | before the roll duration a frame only advances the roll timer |
| CoordinatorProofs.RollCommitsOnTime | game_coordinator.py:403-419 | the pending roll is committed and logged with its roll number on exactly the frame the timer reaches the roll duration |
| CoordinatorProofs.RollLifecycle | game_coordinator.py:279-299 | a started roll shows its result after exactly the roll duration, with one more roll used |
| CoordinatorProofs.TransitionWaits | game_coordinator.py:396-400 | while the turn overlay is up, a frame only advances its timer |
| CoordinatorProofs.TransitionEnds | game_coordinator.py:396-400 | the overlay goes down on the frame its timer reaches the duration |
| CoordinatorProofs.HoldShowWaits | game_coordinator.py:422-427 | during the AI's hold pause a frame only advances the pause timer |
| CoordinatorProofs.HoldShowEnds | game_coordinator.py:422-427 | the pause ends and the roll starts on exactly the frame the pause timer reaches its duration |
| CoordinatorProofs.UndoToggle | game_coordinator.py:232-265 | undoing a hold toggle restores the coordinator exactly |
| CoordinatorProofs.UndoTwice | game_coordinator.py:232-265 | undo is last in, first out |
| CoordinatorProofs.UndoScoreSingle | game_coordinator.py:530-535 | in a single-player game a scoring can be undone: card, dice and log come back |
| CoordinatorProofs.NoUndoAcrossTurns | game_coordinator.py:536-546 | in a multiplayer game a scoring cannot be undone |
| CoordinatorProofs.AiTurnPushesNothing | game_coordinator.py:209-213 | an AI's hold and roll push no snapshot |
| GameLogs.LogRoll | game_log.py:32-40 | one roll entry is appended, with no category or score; earlier entries stay |
| GameLogs.LogHoldChange | game_log.py:42-50 | one hold entry is appended with the held indices; earlier entries stay |
| GameLogs.LogScore | game_log.py:52-61 | one score entry is appended with the category and score; earlier entries stay |
| GameLogs.TurnEntries | game_log.py:63-66 | exactly the entries of the given turn and player |
| GameLogs.ScoreEntries | game_log.py:68-71 | exactly the score entries of the given player |
| GameLogs.Clear | game_log.py:73-75 | a cleared log is empty |
| GameLogs.SelectAppend | game_log.py:63-71 | the filters keep log order: filtering a longer log extends the filtered shorter one |
| GameLogs.LogScoreViews | game_log.py:52-71 | logging a score adds exactly that entry to its player's score view and to its turn view, and changes no other view |
| GameLogs.LogRollNotScored | game_log.py:32-40 | rolls never show up among score entries |
| GameLogs.ClearEmpty | game_log.py:73-75 | a cleared log has no turn or score entries |
| Frontend.NewAdapter | frontend_adapter.py:104-138 | a new adapter has no overlay open, blocks no input, selects and hovers nothing, shows no flash, has both history filters on "all" and has neither played the game-over handling nor saved scores |
| Frontend.ToggleHelp | frontend_adapter.py:142-151 | help is refused while the dice roll or after the game; opening it shuts history and replay and drops the keyboard selection; closing it touches nothing else |
| Frontend.ToggleHistory | frontend_adapter.py:153-162 | history is refused while rolling, after the game or under help; opening shuts replay and drops the selection; closing puts both filters back on "all" |
| Frontend.ToggleReplay | frontend_adapter.py:164-168 | the replay overlay flips only once the game is over |
| Frontend.CloseTopOverlay | frontend_adapter.py:170-183 | the result says whether an overlay was open; help closes first, then replay, then history (resetting the filters); with none open nothing changes |
| Frontend.Commit | frontend_adapter.py:209-213 | the coordinator's verdict on the category is the result; success takes the coordinator's scoring and drops the selection, refusal changes nothing |
| Frontend.TryScoreCategory | frontend_adapter.py:197-213 | a filled category or a turn not yet rolled is refused unchanged; a zero score only records the pending confirmation; a success scores a positive value; the game changes only on success |
| Frontend.ConfirmZeroYes | frontend_adapter.py:215-225 | with nothing pending it refuses unchanged; otherwise the pending category is cleared and scored as a direct commit |
| Frontend.ConfirmZeroNo | frontend_adapter.py:227-229 | the pending confirmation is dropped and nothing else changes |
| Frontend.UnfilledRows | frontend_adapter.py:240-241 | the open rows of the current card, in increasing order |
| Frontend.NextRowSpec | frontend_adapter.py:245-253 | the row chosen is the next open row after the selection (forward) or the previous one (backward), wrapping, starting from either end when nothing is selected |
| Frontend.NavigateCategory | frontend_adapter.py:233-255 | with every row filled nothing changes; otherwise the selection moves to the next or previous open row and the hover is cleared; the game is untouched |
| Frontend.SetHoveredCategory | frontend_adapter.py:257-260 | the hover is set and the keyboard selection dropped, nothing else |
| Frontend.ClearHover | frontend_adapter.py:262-264 | the hover is cleared, nothing else |
| Frontend.CyclePlayerFilter | frontend_adapter.py:416-421 | the player filter moves to the next of all/human/greedy/ev/optimal, wrapping, and nothing else changes |
| Frontend.CycleModeFilter | frontend_adapter.py:423-428 | the mode filter moves to the next of all/single/multiplayer, wrapping, and nothing else changes |
| Frontend.Preferences | frontend_adapter.py:282-289 | the saved dictionary has exactly the keys of the settings defaults |
| Frontend.SavePreferences | frontend_adapter.py:282-289 | after a save the settings file reads back as the adapter's preferences; only the file changes |
| Frontend.ToggleColorblind | frontend_adapter.py:291-294 | the colour-blind flag flips and the preferences are saved; nothing else changes |
| Frontend.ToggleDarkMode | frontend_adapter.py:296-299 | the dark-mode flag flips and the preferences are saved; nothing else changes |
| Frontend.ToggleSound | frontend_adapter.py:301-304 | the sound flag flips and the preferences are saved; nothing else changes |
| Frontend.ChangeSpeedAction | frontend_adapter.py:306-311 | the result is the coordinator's verdict; a refused step changes nothing, an accepted one takes the new coordinator and saves the preferences |
| Frontend.DoRoll | frontend_adapter.py:315-321 | the coordinator's roll is taken and the result says whether a roll is animating afterwards: always true when a roll could start, otherwise true only if one was already animating |
| Frontend.DoHold | frontend_adapter.py:323-326 | the coordinator's hold toggle is taken and nothing else changes |
| Frontend.DoUndo | frontend_adapter.py:328-330 | the result says whether there was anything to undo; the coordinator's undo is taken |
| Frontend.SaveScores | frontend_adapter.py:446-470 | nothing is written before the game is over or a second time; the first save after the game records the final grand totals and sets the saved flag |
| Frontend.DoReset | frontend_adapter.py:332-340 | the scores file is what saving would leave; the coordinator is reset; the one-shot flags, replay, pending confirmation and selection are cleared |
| Frontend.ConsumeScoreSignal | frontend_adapter.py:389-395 | a score signal starts the flash on its category with the timer at zero and drops the selection and the pending confirmation; the signal is consumed; without one nothing changes |
| Frontend.AdvanceFlash | frontend_adapter.py:397-401 | a running flash advances its timer by one and ends exactly when the timer reaches the flash duration |
| Frontend.OnGameOver | frontend_adapter.py:382-387 | the game-over handling runs once per game: it sets its flag and saves the scores; otherwise nothing changes |
| Frontend.Detect | frontend_adapter.py:365-380 | a roll starts or ends exactly when the coordinator's rolling flag turns on or off; game over is reported only while not yet handled; a scoring event is reported only on an AI turn |
| Frontend.AfterFrame | frontend_adapter.py:382-401 | after a frame the score signal is consumed, a finished game is handled and its scores are saved, and a fresh score shows its flash at timer one |
| Frontend.Update | frontend_adapter.py:344-403 | after a frame the coordinator is the ticked one with its score signal consumed and the same seats; a roll start or end is reported exactly when the rolling flag turns on or off across the frame; game over is reported exactly on the first frame that sees it, and then the scores are saved; a fresh score shows its flash at timer one; a scoring is reported only on an AI turn |
| FrontendProofs.AiScoringReported | frontend_adapter.py:375-379 | in a single-player game the AI plays, the frame that commits the AI's previewed score on an open category reports the scoring |
| FrontendProofs.NextThenPrev | frontend_adapter.py:245-253 | from an open row, the next open row's previous open row is that row |
| FrontendProofs.PrevThenNext | frontend_adapter.py:245-253 | from an open row, the previous open row's next open row is that row |
| FrontendProofs.NavigateRoundTrip | frontend_adapter.py:233-255 | forward then back, or back then forward, returns the selection to the open row it started on |
| FrontendProofs.NavigateFromNothing | frontend_adapter.py:245-246 | with nothing selected, forward selects the first open row and backward the last |
| FrontendProofs.ZeroScoreFlow | frontend_adapter.py:197-229 | a zero score first only asks; "yes" then scores exactly as a direct commit; "no" restores the adapter |
| FrontendProofs.ConfirmWithoutPending | frontend_adapter.py:215-229 | with nothing pending both answers leave the adapter as it was |
| FrontendProofs.NonZeroScoresAtOnce | frontend_adapter.py:197-213 | an open, rolled category with a positive score is scored at once by the coordinator |
| FrontendProofs.HelpThenClose | frontend_adapter.py:142-183 | opening help and then closing the top overlay leaves every overlay shut |
| FrontendProofs.CloseThrice | frontend_adapter.py:170-193 | three closes shut every overlay |
| FrontendProofs.HistoryOpenClose | frontend_adapter.py:153-162 | opening and closing history leaves both filters on "all" |
| FrontendProofs.FiltersCycle | frontend_adapter.py:416-428 | five player-filter steps and three mode-filter steps each return to the start |
| FrontendProofs.FilterWraps | frontend_adapter.py:416-428 | after the last option each filter wraps to "all" |
| FrontendProofs.SaveScoresOnce | frontend_adapter.py:446-451 | saving twice equals saving once, whatever date the second save carries |
| FrontendProofs.SaveSingleEntry | frontend_adapter.py:462-470 | a single-player save ends the history with the grand total, recorded as "human" when no strategy plays and under the strategy's name otherwise |
| FrontendProofs.SaveMultiEntries | frontend_adapter.py:452-461 | a multiplayer save ends the history with one entry per seat, in seat order, each with the configured name, the seat's grand total, and "human" exactly when no strategy plays the seat |
| FrontendProofs.ResetSavesOnce | frontend_adapter.py:332-340 | a reset saves a finished, unsaved game once, never a saved one, and re-arms saving for the next game |
| FrontendProofs.GameOverOnce | frontend_adapter.py:382-387 | after the frame that reports game over, the scores are saved and no later frame reports it again |
| FrontendProofs.FlashLasts | frontend_adapter.py:397-401 | a flash shows its category while its timer is below the duration and ends exactly when it reaches it |
| FrontendProofs.FlashShowsScore | frontend_adapter.py:389-401 | a score signal shows its category for exactly the flash duration |
| FrontendProofs.OneSelectionNavigateHover | frontend_adapter.py:233-264 | navigating, hovering and clearing the hover never leave a keyboard selection and a hover set together |
| FrontendProofs.OneSelectionScoring | frontend_adapter.py:197-225 | scoring never leaves a keyboard selection and a hover set together |
| FrontendProofs.OneSelectionOverlays | frontend_adapter.py:142-162 | opening help or history never leaves a keyboard selection and a hover set together |
| FrontendProofs.PreferencesPersist | frontend_adapter.py:282-311 | after every toggle or accepted speed change the settings file reads back as the current preferences |
| ScoreHistory.LoadScores | score_history.py:19-30 | a stored list reads as itself; anything else reads as no scores |
| ScoreHistory.SaveScores | score_history.py:33-38 | what is saved loads back unchanged |
| ScoreHistory.Cap | score_history.py:56-57 | at most 1000 entries are kept: the newest ones, in order |
| ScoreHistory.RecordScore | score_history.py:41-58 | the new single-player entry is last; before it come the newest earlier entries; the history grows by one up to the cap of 1000 |
| ScoreHistory.RecordMultiplayerScores | score_history.py:61-82 | the history grows by one entry per player, up to the cap of 1000 |
| ScoreHistory.RecordMultiplayerKeeps | score_history.py:61-82 | the players' entries end the history, in order and sharing the date, behind the newest part of what was stored before |
| ScoreHistory.CapAppend | score_history.py:71-81 | capping an appended list keeps all that was appended when it fits, behind the newest older entries |
| ScoreHistory.AllScores | score_history.py:102-104 | every stored entry, in order |
| ScoreHistory.Insert | score_history.py:98 | inserting into a descending list keeps it descending and adds exactly the one entry |
| ScoreHistory.SortDescending | score_history.py:98 | the result is descending by score and a permutation of the input |
| ScoreHistory.PrefixTo | score_history.py:99 | Python slicing up to a limit, with a negative limit counting from the end |
| ScoreHistory.OfTypeOnly | score_history.py:96-97 | exactly the entries of the player type, each at most as often as before; no type keeps all |
| ScoreHistory.OfTypeOnlyCounts | score_history.py:96-97 | the filter keeps every copy of each entry of the type and no copy of any other entry |
| ScoreHistory.HighScores | score_history.py:85-99 | the high scores are stored entries of the player type, highest first; a non-negative limit gives min(limit, number of entries of the type) of them |
| ScoreHistory.SortStable | score_history.py:98 | the sort is stable: entries with equal scores keep their recorded order |
| ScoreHistory.HighScoresTop | score_history.py:85-99 | the high scores are a prefix of the stably sorted entries of the type, and no entry left out scores more than the last one shown; the prefix has min(limit, entries of the type) entries, or for a negative limit that many fewer than all, as Python's slice does |
| ScoreHistory.RecordWhenFull | score_history.py:41-58 | once the history is full a new score pushes out exactly the oldest entry |
| ScoreHistory.SaveLoad | score_history.py:19-38 | saving and loading a list gives it back |
| Settings.LoadSettings | settings.py:23-43 | exactly the known keys; each takes the stored value when the file is an object holding it, else its default |
| Settings.SaveSettings | settings.py:46-54 | a successful write stores the settings; a failed one leaves the file as it was |
| Settings.NonObjectDefaults | settings.py:31-43 | a missing, corrupt or non-object file loads as the defaults |
| Settings.SaveLoadRoundTrip | settings.py:23-54 | settings with exactly the known keys survive a save and a load |
| Settings.SaveLoadDropsUnknown | settings.py:37-41 | unknown keys are dropped on load and the known ones survive |
| Settings.LoadSaveLoad | settings.py:23-54 | saving what was loaded and loading again gives the same settings, whether or not the write succeeds |
| Web.FindByName | web.py:206-211 | a found category is in the list and carries the name; no category is found only when none carries it |
| Web.CategoryByName | web.py:206-211 | a found category carries exactly the name; nothing is found only when no category carries it |
| Web.CategoryByNameRoundTrip | web.py:206-211 | every category is found by its own display name |
| Web.Lookup | web.py:130-203 | a found command is paired with the name in the table; nothing is found only when no entry carries the name |
| Web.ParseCommand | web.py:132-134 | a command is recognised only from a string `action` paired with it in the command table |
| Web.LookupNamed | web.py:134-203 | in a table without repeated names, each entry's name finds that entry's command |
| Web.ParseCommandNamed | web.py:132-203 | a string `action` naming a command in the table dispatches to that command |
| Web.HoldIndex | web.py:137-140 | a die index passes exactly when it is an integer (a boolean being one) between 0 and 4 |
| Web.NamedCategory | web.py:142-146 | a category is named only by a `category` string equal to its display name |
| Web.Direction | web.py:154-156 | a missing direction means forward; an integer is taken as it is; anything but an integer or a boolean cannot be compared with 0 |
| Web.HandleAction | web.py:130-203 | a message without a known command leaves the adapter alone; the handler fails only for navigation with a direction that is not a number; every result is well formed |
| Web.Navigate | frontend_adapter.py:239-253 | a numeric direction navigates; a non-numeric one fails unless every row is filled |
| Web.HoverCommand | web.py:158-164 | the hover becomes the named category, or is cleared when the name is unknown; a known name also drops the keyboard selection; the coordinator is untouched |
| Web.ViewCommand | web.py:166-203 | the overlay, preference, speed and filter commands never change the game |
| Web.HoldGuard | web.py:137-140 | a hold message reaches the adapter exactly when its die index passes the guard, and otherwise changes nothing |
| Web.ScoreByName | web.py:142-146 | a score message scores the category it names through the adapter; any other name changes nothing |
| Web.HoverUnknownClears | web.py:158-164 | hovering over an unknown name clears the hover |
| Web.UnknownCommandIgnored | web.py:130-203 | a message whose action names no command changes nothing |
| Web.NavigateDefaultsForward | web.py:154-156 | navigation without a direction moves forward |

## Left out

- Real file reads and writes: the scores file, the settings file and the autosave. The model treats a file as a `Stored` value holding what a read yields. A save writes into that value.
- The clock: `datetime.now()` becomes a `date: string` parameter.
- Randomness: the `random.randint` faces of a roll become a parameter, and so do the coin flips of `RandomStrategy`. Only its legality is stated (`Ai.RandomLegal`).
- Sound playback, and the sound objects of `sounds.py`. The adapter keeps only the enabled flag. It starts off, as with the silent default sound object (frontend_adapter.py:76-93).
- `FrontendAdapter.load_settings` (frontend_adapter.py:268-280) is not modelled: it reads the settings file at start-up. `_save_settings` and everything that calls it are modelled.
- `FrontendAdapter.get_filtered_history`: it calls `get_recent_scores_filtered`, which `score_history.py` does not define.
- `FrontendAdapter.get_high_scores` is left out. It is `ScoreHistory.HighScores` with the type "human" and a limit of 5.
- `FrontendAdapter.get_game_snapshot` is a JSON view for the renderer and is left out.
- `FrontendAdapter.score_flash_progress` is left out because it is a float. The flash timer it reads is modelled.
- The Flask routes, the WebSocket loop, the broadcast thread and its lock (web.py:27-127) are left out: they are network I/O and concurrency.
- A message that is not a JSON object is never handed to `_handle_action`. The model's `Message` is always a map.
- Web.Direction: a JSON float direction reads as "not comparable", which makes navigation fail. Python would compare it with 0 instead.
- Score-history entries are well-formed records. Entries missing `score` or `player_type` are not modelled: Python reads them with `.get` defaults.
- `save_state`, `load_state`, `clear_autosave`, `parse_args` and `_make_strategy` in `game_coordinator.py` are left out: they are JSON and temp-file plumbing and command-line parsing.
- The coordinator's `ai_reason` text is left out. It is a display string, and the files disagree about it (see the list of mismatches above).
- Engine.SelectCategory: the score that completes the card keeps the round at 13 instead of moving it to 14. No test reads the round after the thirteenth score (test_game_engine.py:899-912). The model keeps the round within the 1-13 range that game_engine.py:283 documents. The adapter tells that final scoring apart by its separate game-over test (frontend_adapter.py:377-378).
- Strategies are function parameters. `ExpectedValueStrategy` is left out because it is Monte Carlo sampling over floats.
- `game_coordinator.py:15-19` imports `OptimalStrategy` from `ai`, which `ai.py` does not define; it is left out.
- Greedy.GreedyStrategy: with the rolls used up on a complete card it answers `ScoreAction(Chance)`, where `_best_score` would return a score action with no category (ai.py:246-271). With rolls left on a complete card it holds dice as the source does (ai.py:175-186). On dice that are not valid faces it also answers `ScoreAction(Chance)`; no game state holds such dice. No caller reaches the complete-card case, because the game is over then.
- CategoryEv: the docstring of `_compute_category_ev` speaks of three rolls, but the code has only one reroll phase before the final roll. The model follows the code.
- Probabilities are exact: weights out of 6^k and `real` expected values. Float rounding is not modelled.
- Combos: the count 252 is not computed. The model proves that the generated list is distinct, contains only sorted five-dice tuples, and contains every such tuple.
- DiceTables: the hold counts 6 (five equal faces) and 32 (five distinct faces) are not computed. The holds are characterised exactly by `DiceTables.UniqueHoldsIff`.
- Ai.PlayTurns: requires `ScoresOpen(strategy)`, a strategy that only scores open categories. `play_game` (ai.py:104-116) never ends under a strategy that scores a filled category, because `select_category` then returns the state unchanged (ai.py:88-89). Such a game is not modelled. The greedy strategy meets the requirement (`Greedy.GreedyScoresOpen`), and so does every random choice (`Ai.RandomLegal`).
- Ai.ApplyHolds: idempotence over arbitrary hold lists is not stated. `Ai.HoldsAlreadyApplied` states the case where the dice already show the holds.
- Scorecards.ShownGrandTotal is the three-term total that `game_engine.py` computes. The tests and the coordinator use `Scorecards.GrandTotal`, which adds the Yahtzee bonus.
- Python exceptions become `None` results. This covers navigation with a non-numeric direction, which raises in Python.
- The settings writes that the adapter triggers are assumed to succeed. `Settings.SaveSettings` models a failed write, but the adapter always passes success.

# A verified model of the poker servers

This project models the parts of the repository where correctness depends on more than one function: how the CFR
server enumerates, canonicalises, indexes and counts boards up to renaming of suits; how the platform server matches
asynchronous answers of the CFR server to the decision a robot is waiting for; how the trainer and its consumers share
a queue and two counters; and four data structures underneath them (the pooled hash map of running games, the buffered
file reader, the parallel load of the strategy tables, the betting-tree keys).

`dafny verify dfyconfig.toml` checks everything.

## What is proved

**Boards up to suit isomorphism.** The repository canonicalises boards twice: street by street with suit groups
(`NumMappings`, `ToTypical`), and all at once by sorting packed suit codes (`CanonicalizeCards`). The model proves that
the first gives, for each orbit of group-preserving suit permutations, the orbit's size at exactly one member and 0 at
the others; that the second computes a complete invariant of suit isomorphism; and that the two agree: a raw board is
enumerated iff its codes never increase, so canonicalising any raw board lands in the tree and every tree board is its
own canonical form. Streets and boards are stored in lexicographic order of their cards, which with the above fixes
every index. On top of this, the counting pass and the building pass visit the same tree, the successor spans
tile every deeper street and contain exactly the extensions of their board, local and global indices and the lookup
are inverse, the count of a board is the product of the variants on its path and the number of raw boards behind it,
and every ancestor entry is written once.

**Robot protocol.** Every handler runs under the robot's lock and is one step. With hand ids that are fresh when put into
use (a begin message that is refused puts none into use, or 0 for a record it added),
at most one request in flight carries the current hand, none does while the robot is ready, and while it waits that
request is about the decision the robot is at; so an answer is only ever applied to the betting it was computed for, and
it is applied iff it is awaited and stands for a legal action (`AppliedExactly`); any other awaited answer is a fold.
Whoever waits has a question in flight whose answer ends the wait (`WaitsEnd`).
An in-flight request is either awaited or stale; it becomes stale at exactly the timeouts, new hands, refused cards and
foreign actions (`GivesUpExactly`), stays so, and its answer then changes and sends nothing, however late it comes
(`LateAnswer`). The server object goes through the runs of this system message by message (`Serve`).
Three things turned out false without a condition, and the model says exactly when they hold:
- a begin message keeps the invariant iff no request of the robot in flight carries its hand id
  (`BeginExactly`; `ReusedHand` shows an answer applied to the wrong betting);
- later replies are matched to accepted requests iff no record is left over from a failed begin whose uninitialised run
  state reads as waiting (`StepConserves`; `UnaskedReply`);
- over a run, an answer can be applied to other cards than it was computed from iff some well-dealt card message brought
  a waiting robot a card that its slot did not hold (`AppliedCardsExactly`; `DealtTwice` is such a run).

**Training.** In every interleaving the two counters differ by exactly the outstanding TRAIN tasks; without a kill
nothing is done between batches while one is outstanding, every iteration is trained once, and the operations are
those of the sequential schedule; each agent gets one save task per save. There is no deadlock: from every state of an
unkilled run some interleaving finishes it (`CanFinish`). A finished run issues discount k iff k intervals are below the
threshold, a whole number of batches from the start, and the start itself or less than one batch past the iteration
limit (`FinishedDiscounts`); from iteration 0, when a batch divides the discount interval, the discounts are number
1, 2, ... each once, and interval j ends up with weight j / (n + 1).
`KilledRun` shows a strategy update during an outstanding task after a kill. The executor's shutdown processes every
task exactly once if nothing is submitted after `final` saw the queue empty. While it runs no consumer leaves, an idle
one gets the next task, and from every state some steps make `final` return (`CanShutDown`). In general, from any point after the
consumers were told to stop and the last submission, as many tasks stay behind as the queue then holds beyond the
consumers about to fetch (`ShutdownLeaves`); `LateSubmission` is a run that leaves one.

**Hash map, reader, table load, keys.** The pooled chains denote a finite map with no cycle and no lost node; typed
reads return the next bytes wherever the buffer ends; any interleaving of the per-file loads gives the sequential
tables, can be completed from any point, and every row holds one value per hand and successor; a key determines its history up to exactly what it cannot express (`SameKey`), and `LostStreet` shows two
histories with one key.

## How the source is represented

- A card is `rank * 4 + suit`; there are four suits; ranks and cards per street are parameters (at most 16 ranks, the
  width of a rank mask; one to three cards per street, other numbers abort in the source). The four group bytes of an
  int are a sequence of four labels. Rank masks are numbers, and or-ing disjoint 16-bit fields is adding them.
  `CodeFits` shows that three board streets and a hand fill exactly 64 bits.
- A board is the list of its streets; the flat card array is `Flat` of it. The nested loops over one, two or three
  cards, which the source writes out, are one recursion (`Enumerate`), also in `DealRawBoards`.
- An array of the board tree is modelled by its initialised prefix, and the parallel arrays of variants, cards and
  groups by one array of rows. A lookup slot holding the largest int is `None`. `pow` is integer power.
- Pool nodes of the hash map are named by their index in the pool array. The three chain walks of the source are one
  method.
- The table of running games in `Servers` is a map from robot to record; `PoolMaps` shows that the hash map is one.
- The poker engine, message parsing, the network, clocks and the conversion of an answer into an action are parameters
  of the handlers; time-outs are events. Engine answers depend on the actions played so far.
- The trainer and executor are transition systems whose steps are the accesses to shared data. `TaskExecutor` is the
  executor over its queue object, one method per step, and `TrainAlone` the training loop itself. Counters are unbounded.
- A file of strategy values is a sequence of whole values; a shared node of the betting graph is met again under the
  same player, street and id.
- A card slot holds card 0 until it is dealt, as in the zeroed state of the source.
- `CRunGame::Reset` does not set the run state or the action sequence number, so a new record has arbitrary ones.
- `CRunGameHashMap::Init` is declared `bool` but returns error codes, so it answers true exactly when it refuses. Its
  test for more than 100 nodes in a chain comes after one for more than 20 and never fires.

## Model

| member | source | states |
|---|---|---|
| Mappings.NChooseK | CfrServer/src/typical_cards.cpp:362-372 | the quotient of falling products is the binomial coefficient |
| Mappings.UpdateSuitGroups | CfrServer/src/typical_cards.cpp:462-495 | suits keep a common label iff they had one and hold the same ranks; labels are class minima |
| Mappings.LabelCounts | CfrServer/src/typical_cards.cpp:380-385 | how many suits carry each label |
| Mappings.RankBlock | CfrServer/src/typical_cards.cpp:392-407 | the maximal block of one rank, the suits it holds and how many of each group |
| Mappings.LowestUsed | CfrServer/src/typical_cards.cpp:420-435 | accepts iff the block uses the lowest suits of the group |
| Mappings.RelabelUnused | CfrServer/src/typical_cards.cpp:437-454 | the unused suits of the group get the label of the lowest of them |
| Mappings.UseGroup | CfrServer/src/typical_cards.cpp:411-454 | non-zero iff lowest suits are used, and then the factor by which the group's symmetries shrink |
| Mappings.SplitBlock | CfrServer/src/typical_cards.cpp:409-455 | every used group is split, and the running product stays the ratio of symmetry group sizes |
| Mappings.NumMappings | CfrServer/src/typical_cards.cpp:374-460 | the size of the street's orbit under group-preserving suit permutations if the street is canonical, else 0 |
| Arrangements.OrbitStabiliser | CfrServer/src/typical_cards.cpp:374-460 | orbit size times stabiliser size is the size of the suit symmetry group |
| SuitGroups.HandOrbitSize | CfrServer/src/typical_cards.cpp:374-460 | a street has as many renamings as its vector of rank masks |
| SuitGroups.OrbitShrinksGroup | CfrServer/src/typical_cards.cpp:374-495 | orbit size times the symmetries of the refined groups is the symmetries of the old groups |
| SuitGroups.CanonicalExists | CfrServer/src/typical_cards.cpp:374-460 | every orbit has a canonical member |
| SuitGroups.OneCanonical | CfrServer/src/typical_cards.cpp:374-460 | an orbit has at most one canonical member |
| SuitGroups.CanonicalFibre | CfrServer/src/typical_cards.cpp:288-460 | the streets renamed to a street are its orbit if it is canonical and none otherwise |
| Renaming.UpdateLabels | CfrServer/src/typical_cards.cpp:256-280 | after a card is placed, suits share a label iff they did at the start and hold the same ranks so far |
| Renaming.SwapRest | CfrServer/src/typical_cards.cpp:235-254 | exactly two suits are exchanged from a position on |
| Renaming.ToTypical2 | CfrServer/src/typical_cards.cpp:201-286 | the result is a group-preserving renaming of the street and canonical, although classes are refined card by card |
| Renaming.SortRenamed | CfrServer/src/typical_cards.cpp:291-359 | a permutation in descending order for at most three cards, failure otherwise |
| Renaming.ToTypical | CfrServer/src/typical_cards.cpp:288-360 | the canonical member of the street's orbit, highest card first |
| TypicalCards.Enumerate | CfrServer/src/typical_cards.cpp:30-193 | the nested loops list the streets of the reference enumeration, smaller streets first, card by card |
| TypicalCards.HandsAre | CfrServer/src/typical_cards.cpp:30-193 | exactly the descending streets that avoid the previous cards are listed |
| TypicalCards.HandsDistinct | CfrServer/src/typical_cards.cpp:30-193 | no street is listed twice |
| TypicalCards.HandsOrdered | CfrServer/src/typical_cards.cpp:30-193 | a row precedes another iff its street is lexicographically smaller |
| TypicalCards.HandsUnique | CfrServer/src/typical_cards.cpp:30-193 | contents and order determine the list: the only ascending list of the descending streets that avoid the previous cards |
| TypicalCards.HandsCount | CfrServer/src/typical_cards.cpp:30-193 | their number is the binomial coefficient of the free cards |
| TypicalCards.IndexMatches | CfrServer/src/typical_cards.cpp:28-193 | the number of rows is the number allocated, so no index leaves the arrays |
| TypicalCards.FillRow | CfrServer/src/typical_cards.cpp:41-70 | variants, canonical code and refined groups of one street |
| TypicalCards.HandCodeOrder | CfrServer/src/typical_cards.cpp:41-59 | codes of streets compare like the streets, so different streets of one size have different codes |
| TypicalCards.Create | CfrServer/src/typical_cards.cpp:20-194 | the whole table, exactly for one to three cards |
| TypicalCards.VariantsSum | CfrServer/src/typical_cards.cpp:374-460 | the variants of all raw streets add up to the number of raw streets |
| TypicalCards.TableSums | CfrServer/src/typical_cards.cpp:20-194 | the sum of the variants is the number of rows, the number of ways to draw n of the remaining cards |
| Canonicalize.EncodeRanksOfRawSuitForStreet | CfrServer/src/typical_cards.cpp:499-514 | the rank mask of a suit on a street |
| Canonicalize.EncodeRanksOfRawSuit | CfrServer/src/typical_cards.cpp:516-537 | the masks of all streets, first street most significant, hole cards last |
| Canonicalize.CodesCompare | CfrServer/src/typical_cards.cpp:516-537 | codes compare lexicographically street by street |
| Canonicalize.CodeFits | CfrServer/src/typical_cards.cpp:516-537 | a code of n streets needs 16 n bits |
| Canonicalize.BestSuit | CfrServer/src/typical_cards.cpp:553-565 | the unused suit with the largest code, the lowest on ties |
| Canonicalize.SortSuits | CfrServer/src/typical_cards.cpp:547-568 | all suits in order of decreasing code |
| Canonicalize.InvertMapping | CfrServer/src/typical_cards.cpp:570-574 | the inverse permutation |
| Canonicalize.SortCards | CfrServer/src/help_functions.cpp:62-131 | a permutation in descending order for one to three cards, failure otherwise |
| Canonicalize.CanonicalizeCards | CfrServer/src/typical_cards.cpp:539-606 | succeeds iff every street has one to three cards; the result is the deal renamed by the returned mapping, each street sorted, with codes that never increase |
| Canonicalize.CompleteInvariant | CfrServer/src/typical_cards.cpp:539-606 | two deals get the same result iff some suit permutation maps one to the other street by street |
| Canonicalize.CanonUnique | CfrServer/src/typical_cards.cpp:539-606 | a deal has one canonical form |
| Canonicalize.FixedPoint | CfrServer/src/typical_cards.cpp:539-606 | a sorted deal is its own canonical form iff its codes never increase |
| Canonicalize.Idempotent | CfrServer/src/typical_cards.cpp:539-606 | canonicalising twice changes nothing |
| Boards.TreeIffSorted | CfrServer/src/p_card_tree.cpp:93-142 | a raw board is enumerated by the tree iff its suit codes never increase |
| Boards.CanonicalIsInTree | CfrServer/src/p_card_tree.cpp:335-348 | the canonical form of every raw board is a board of the tree |
| Boards.TreeIsFixed | CfrServer/src/p_card_tree.cpp:335-348 | the only canonical form of a tree board is itself |
| BoardCounts.PathShrinks | CfrServer/src/p_card_tree.cpp:106-125 | the product of variants on a path times the symmetries left is all suit permutations |
| BoardCounts.CountIsProduct | CfrServer/src/p_card_tree.cpp:335-443 | as many raw boards canonicalise to a board as the product of the variants on its path says |
| BoardCounts.CountsSum | CfrServer/src/p_card_tree.cpp:335-443 | the counts of a street add up to the number of raw boards |
| BoardCounts.BoardSymmetric | CfrServer/src/p_card_tree.cpp:61-142 | suits of one group of a board hold the same dealt cards |
| BoardCounts.BoardsOrdered | CfrServer/src/p_card_tree.cpp:93-142 | a board has a smaller index than another of its street iff its cards are lexicographically smaller |
| PCardTrees.StreetVariants | CfrServer/src/p_card_tree.cpp:61-68 | after any raw board the variants of the next streets sum to the number of ways to draw them |
| PCardTrees.PCardTree.Count | CfrServer/src/p_card_tree.cpp:61-91 | every deeper street gains exactly the boards below the given one |
| PCardTrees.PCardTree.Build | CfrServer/src/p_card_tree.cpp:93-142 | on every deeper street the boards below are appended in depth-first order, with their spans |
| PCardTrees.PCardTree.Enter | CfrServer/src/p_card_tree.cpp:111-125 | a new board gets the next index of its street, which lies within the counted array |
| PCardTrees.PCardTree.RecordSpans | CfrServer/src/p_card_tree.cpp:127-140 | the span of a board, stored at the board's own index, is what was appended while it was visited |
| TreeArrays.SpanPlace | CfrServer/src/p_card_tree.cpp:109-140 | when everything below a board is built, the next span of its street is that of its index |
| PCardTrees.PCardTree.Create | CfrServer/src/p_card_tree.cpp:144-210 | the mismatch exit is never taken; the arrays hold exactly the tree |
| PCardTrees.PCardTree.RowsOrdered | CfrServer/src/p_card_tree.cpp:93-142 | the stored boards of a street are in that order |
| PCardTrees.SpansCover | CfrServer/src/p_card_tree.cpp:127-140 | spans are ordered, contiguous and cover the deeper street |
| PCardTrees.SpanExtends | CfrServer/src/p_card_tree.cpp:127-140 | a board lies in a span iff the span's board is its prefix |
| PCardTrees.SpanBoard | CfrServer/src/p_card_tree.cpp:127-140 | the boards in a span are the extensions in depth-first order |
| PCardTrees.PCardTree.LocalToGlobal | CfrServer/src/p_card_tree.cpp:32-59 | local index l names the l-th extension of the root board, and LocalIndex undoes GlobalIndex |
| PCardTrees.PCardTree.GlobalToLocal | CfrServer/src/p_card_tree.cpp:32-59 | a board extends the root board iff its local index is in range and GlobalIndex undoes LocalIndex |
| MixedRadix.Encode | CfrServer/src/p_card_tree.cpp:293-299 | the mixed-radix code of the cards |
| MixedRadix.CodeBound | CfrServer/src/p_card_tree.cpp:252-268 | every code is within the table |
| MixedRadix.CodeInjective | CfrServer/src/p_card_tree.cpp:263-268 | different card lists of one length have different codes |
| MixedRadix.CodeFirst | CfrServer/src/p_card_tree.cpp:293-299 | the first card is the lowest digit |
| BoardTables.BoardTables.CreateLookup | CfrServer/src/p_card_tree.cpp:242-271 | every slot holds the board with its code, or none |
| BoardTables.BoardTables.LookupBoard | CfrServer/src/p_card_tree.cpp:286-307 | the board with exactly these cards, and none iff there is no such board; the cards of board bd give bd |
| BoardTables.BoardTables.CountBoard | CfrServer/src/p_card_tree.cpp:338-348 | the lookup of a canonicalised raw board never fails, and exactly its canonical board is counted |
| BoardTables.BoardTables.DealRawBoards | CfrServer/src/p_card_tree.cpp:335-408 | every raw board at or below the given one is counted once |
| BoardTables.BoardTables.BuildBoardCounts | CfrServer/src/p_card_tree.cpp:410-443 | the count of a board is the number of raw boards whose canonical form it is; no exit is taken |
| BoardTables.CountsFactor | CfrServer/src/p_card_tree.cpp:410-443 | counts are products of variants, never zero, and sum to the raw boards |
| PredBoards.PredBoards.BuildPredBoards | CfrServer/src/p_card_tree.cpp:481-494 | every entry ends up holding the ancestor of its board |
| PredBoards.PredBoards.Walk | CfrServer/src/p_card_tree.cpp:458-479 | exactly the entries below the path's end are written |
| PredBoards.PredBoards.Write | CfrServer/src/p_card_tree.cpp:466-472 | an entry is unwritten before it is written, and no other entry changes |
| PredBoards.OneAncestor | CfrServer/src/p_card_tree.cpp:458-494 | on every street one board is the prefix of a given board |
| PredBoards.EntryAt | CfrServer/src/p_card_tree.cpp:458-494 | the ancestor of board x on street s is entry x * streets + s |
| PredBoards.TreeAncestry | CfrServer/src/p_card_tree.cpp:458-494 | in the finished tree, spans and ancestors determine each other |
| RunGames.RunGame.GetCurrentPlayerID | APGIServer/src/run_game.cpp:69-96 | of an unfinished known game with a seat at turn, the robot's id if it is the viewing seat and the player's otherwise; else 0 |
| RunGames.RunGame.DoRunMatch | APGIServer/src/run_game.cpp:271-306 | succeeds iff the game is known; then a ready hand without actions or cards, seated by the banker; otherwise only the game type changes |
| RunGames.RunGame.StoreCards | APGIServer/src/run_game.cpp:321-363 | succeeds iff every card converts; then exactly their slots hold them, and no other slot ever changes |
| RunGames.StoreStops | APGIServer/src/run_game.cpp:321-363 | on failure exactly the cards before the first that does not convert are stored |
| RunGames.RunGame.DoSaveCards | APGIServer/src/run_game.cpp:309-381 | code 0 iff the message fits the round, brings its number of cards, all convert and the game is known; then hole, flop, turn and river slots hold them; the code of every refusal |
| RunGames.SaveExactly | APGIServer/src/run_game.cpp:309-381 | accepted cards change the hand iff some slot did not hold its card already |
| RunGames.RunGame.DoAction | APGIServer/src/run_game.cpp:383-426 | code 0 iff it is that player's turn and the action is legal at its size, the code of every refusal, and the whole record after either |
| RunGames.ApplyExactly | APGIServer/src/run_game.cpp:383-426 | a robot raises to the number it gives, anybody else by that number on top of the money put in; the note is the amount raised by; the sequence number grows modulo 256 |
| RunGames.RunGame.DoQueryRobotAction | APGIServer/src/run_game.cpp:496-719 | a request about the current decision goes out iff the robot is ready, at turn and connected, and the robot waits iff it did |
| RunGames.GameBeginNotify | APGIServer/src/apg_task.cpp:239-265 | a fresh ready hand, seated by the banker, iff the model and the game exist; otherwise at most the game type changes |
| RunGames.GameSendCardsNotify | APGIServer/src/apg_task.cpp:306-334 | the card error state iff the message is not well dealt; nothing but cards and run state changes |
| RunGames.GameActionNotify | APGIServer/src/apg_task.cpp:431-471 | another player's action is applied or refused as DoAction says, refused with the player error state; the robot's own is ignored |
| RunGames.QueryActionResp | APGIServer/src/cfr_task.cpp:152-276 | the decoded action is played and reported iff hand, round, sequence number, wait, turn and legality fit; any other reply is a fold; without a reply nothing changes |
| RunGames.AnswerExactly | APGIServer/src/cfr_task.cpp:152-276 | the same of the answer function, and exactly when a reply goes out |
| RunGames.CheckRunGameTimeout | APGIServer/src/apg_task.cpp:154-188 | a reply, which is a fold, iff a late wait ended in the robot error state, and nothing else changes |
| Servers.Server.OnBegin | APGIServer/src/apg_task.cpp:192-265 | the server's records, requests and books after a begin message are those of the transition system |
| Servers.Server.OnCards | APGIServer/src/apg_task.cpp:281-334 | the same for cards |
| Servers.Server.OnAction | APGIServer/src/apg_task.cpp:405-471 | the same for an action |
| Servers.Server.OnAsk | APGIServer/src/apg_task.cpp:543-658 | the same for an action request |
| Servers.Server.OnResponse | APGIServer/src/cfr_task.cpp:108-276 | the same for an answer |
| Servers.Server.OnTimer | APGIServer/src/apg_task.cpp:139-188 | the same for a timer |
| Servers.Server.Serve | APGIServer/src/apg_task.cpp:139-658 | after any messages in any order the records are in the state of the run, with its invariant under fresh hand ids and its cards under no second deal |
| RobotProtocol.StepKeeps | APGIServer/src/cfr_task.cpp:152-244 | every step with fresh hand ids keeps the invariant of requests and records |
| RobotProtocol.Reachable | APGIServer/src/cfr_task.cpp:152-244 | the invariant in every state of every run with fresh hand ids |
| RobotProtocol.BeginExactly | APGIServer/src/run_game.cpp:271-306 | a begin keeps the invariant iff no request in flight carries the hand id |
| RobotProtocol.AppliedWhereComputed | APGIServer/src/cfr_task.cpp:224-244 | an action is applied only to the betting it was computed for, at the robot's turn, and reported |
| RobotProtocol.AnswerEndsWait | APGIServer/src/cfr_task.cpp:152-276 | the answer to the awaited question always ends the wait with one reply |
| RobotProtocol.AppliedExactly | APGIServer/src/cfr_task.cpp:152-276 | an answer is applied iff it is awaited and stands for a legal action; any other awaited answer is a fold |
| RobotAnswers.AwaitedOrStale | APGIServer/src/cfr_task.cpp:157-173 | a request in flight is awaited or stale, never both |
| RobotAnswers.GivesUpExactly | APGIServer/src/apg_task.cpp:147-188 | an awaited request becomes stale at exactly a late or expiring timer, a new hand, refused cards, or an action of somebody else |
| RobotAnswers.StaleStays | APGIServer/src/cfr_task.cpp:157-173 | no step with fresh hand ids wakes a stale request up |
| RobotAnswers.LateAnswer | APGIServer/src/cfr_task.cpp:152-276 | after giving up, whatever happened since, the answer changes no record, sends nothing and moves no tally |
| RobotAnswers.WaitsEnd | APGIServer/src/apg_task.cpp:543-658 | over runs without lost requests and garbage waits, whoever waits has its question in flight |
| RobotProtocol.ToldWhatWasApplied | APGIServer/src/cfr_task.cpp:235-272 | the reply names the applied action, a raise as the amount above what was already put in |
| RobotProtocol.StepConserves | APGIServer/src/cfr_task.cpp:253-276 | accepted requests are replied to, dropped or awaited after a step iff it leaves no wait nobody asked for |
| RobotProtocol.RepliesConserved | APGIServer/src/apg_task.cpp:147-188 | over any such run later replies never outnumber accepted requests |
| RobotExamples.UnaskedReply | APGIServer/src/run_game.cpp:27-43 | a run in which an uninitialised run state causes a reply without a request |
| RobotExamples.ReusedHand | APGIServer/src/cfr_task.cpp:157-168 | a run in which a reused hand id gets the answer to a call applied to a raise |
| RobotCards.CardsExactly | APGIServer/src/run_game.cpp:309-381 | a step keeps awaited questions and cards in agreement iff it is no well-dealt message with a card that a waiting robot's slot does not hold |
| RobotCards.CardsReachable | APGIServer/src/run_game.cpp:309-381 | the agreement in every state of a run with fresh hand ids and no such message |
| RobotCards.AppliedToItsCards | APGIServer/src/cfr_task.cpp:224-244 | in such a state an applied answer was computed from the cards held |
| RobotCards.AppliedCardsExactly | APGIServer/src/run_game.cpp:309-381 | over a run, some answer could be applied to other cards iff some message was of that kind |
| RobotExamples.DealtTwice | APGIServer/src/run_game.cpp:309-381 | a run with fresh hand ids in which an answer is applied to other cards than it was computed from |
| TaskQueues.TaskQueue.Push2 | train/TaskQueue.cpp:25-32 | all tasks at the end, in order |
| TaskQueues.TaskQueue.Get | train/TaskQueue.cpp:34-47 | the first task, or none iff empty |
| Executors.StepBooks | train/TaskExecutor.cpp:70-90 | tasks leave in order, each once; popped tasks are finished or in hand; the counter counts live consumers; whoever submits whenever |
| Executors.StepKeeps | train/TaskExecutor.cpp:34-90 | the queue stays empty once final saw it empty iff nothing is submitted then |
| Executors.ShutdownExactlyOnce | train/TaskExecutor.cpp:34-86 | without such a submission, when final returns every task was popped once in order and finished, the queue is empty and no consumer is live |
| Executors.ShutdownLeaves | train/TaskExecutor.cpp:34-90 | with any submissions, exactly the tasks queued after the last one beyond the consumers about to fetch stay behind, so all are processed iff there are no more than those |
| Executors.LateSubmission | train/TaskExecutor.cpp:34-44 | a task submitted after final saw the queue empty can be left behind |
| ExecutorProgress.RunningWorks | train/TaskExecutor.cpp:70-86 | in every reachable state with the flag set no consumer has left its loop |
| ExecutorProgress.NextTask | train/TaskExecutor.cpp:73-78 | the next two steps of an idle consumer pop the first task and the third finishes it |
| ExecutorProgress.CanDrain | train/TaskExecutor.cpp:70-86 | from any running state with a consumer, steps of the consumers empty the queue and finish what they hold |
| ExecutorProgress.CanShutDown | train/TaskExecutor.cpp:34-86 | from every reachable state with a consumer, some steps without a submission make final return |
| ExecutorProgress.CanFinishAll | train/TaskExecutor.cpp:34-86 | and if nothing was submitted too late, with every task processed |
| TaskExecutors.TaskExecutor.Submit | train/TaskExecutor.cpp:88-90 | pushing on the queue object is the submit step, and the books balance |
| TaskExecutors.TaskExecutor.Consume | train/TaskExecutor.cpp:70-86 | one step of a consumer over the queue object is the model's; it goes on iff the flag is set, and gets the first task if there is one |
| TaskExecutors.TaskExecutor.Final | train/TaskExecutor.cpp:34-67 | one step of final over the queue object is the model's, and the books balance |
| TaskExecutors.TaskExecutor.PerformAll | train/TaskExecutor.cpp:34-90 | after any interleaving the object is in the state of the run; after a quiet shutdown the queue is empty and all tasks are finished |
| Trainers.AlwaysConserved | train/Trainer.cpp:134-160 | in every interleaving, iterations minus processed is the number of outstanding TRAIN tasks |
| Trainers.NoTaskBetweenBatches | train/Trainer.cpp:66-177 | without a kill no TRAIN task is queued or running while the producer works between batches |
| Trainers.KillBreaksBarrier | train/Trainer.cpp:170-177 | with tasks outstanding the wait lets the producer through iff the run was killed |
| Trainers.AlwaysScheduled | train/Trainer.cpp:66-148 | every interleaving without a kill follows the sequential schedule |
| Trainers.FinishedRun | train/Trainer.cpp:113-145 | a finished run did exactly the schedule and overshoots the limit by less than one batch |
| TrainingSchedule.TrainAlone | train/Trainer.cpp:66-148 | the loop performs the passes at successive batch boundaries and stops at the first at or past the limit |
| TrainingSchedule.PassExactly | train/Trainer.cpp:80-107 | at p iterations: strategies and saving iff their interval divides p, discount k iff p is k intervals and below the threshold |
| TrainingSchedule.PassOrder | train/Trainer.cpp:80-107 | at most one of each, strategies before the discount before saving |
| TrainingSchedule.BatchSize | train/Trainer.cpp:117-124 | the smaller of the strategy and the discount interval |
| TrainingSchedule.DiscountsInOrder | train/Trainer.cpp:92-99 | from iteration 0, when batches divide the interval, the discounts are number 1, 2, ... each once |
| TrainingSchedule.DiscountPlace | train/Trainer.cpp:92-99 | discount k is issued only at k intervals, below the threshold |
| TrainingSchedule.DiscountIssued | train/Trainer.cpp:93-124 | a schedule that stops at the limit issues discount k iff k intervals are below the threshold, a whole number of batches from the start, and the start or less than one batch past the limit |
| TrainingSchedule.AllDiscounts | train/Trainer.cpp:93-124 | from iteration 0 it issues every discount below the threshold and less than one batch past the limit iff the batch divides the interval or not even the first is there |
| TrainingSchedule.LinearWeights | train/Trainer.cpp:93-96 | the factors k / (k + 1) from j to n multiply to j / (n + 1) |
| TrainingRuns.FinishedRunIsLinear | train/Trainer.cpp:80-145 | a finished run weights interval j by j over one more than its discounts |
| TrainingRuns.FinishedDiscounts | train/Trainer.cpp:80-145 | which discounts any finished interleaving issued, by the same exact condition |
| TrainingRuns.FinishedAllDiscounts | train/Trainer.cpp:80-145 | when a finished interleaving from iteration 0 issued all of them |
| TrainingRuns.EachIterationOnce | train/Task.cpp:51-63 | between batches every iteration so far has been trained exactly once |
| TrainingRuns.KilledRun | train/Trainer.cpp:170-177 | with any number of consumers, a run with a kill that updates strategies while a TRAIN task is queued |
| TrainingProgress.EachAgentSaved | train/Trainer.cpp:242-266 | in every interleaving each agent gets exactly one save task per save |
| TrainingProgress.AlwaysSaves | train/Trainer.cpp:188-266 | without a kill, the save tasks queued, running and counted are those sent, and none is outstanding outside a save |
| TrainingProgress.CanFinish | train/Trainer.cpp:66-148 | from every state of an unkilled run with a consumer some interleaving finishes the training |
| PoolMaps.PoolMap.Init | APGIServer/src/run_game_hashmap.cpp:14-74 | refuses exactly the two bad size combinations; otherwise an empty map over a free pool |
| PoolMaps.PoolMap.PopNode | APGIServer/src/run_game_hashmap.cpp:293-308 | none iff the free list is empty; otherwise its first node, which is then in no list, with every other list intact |
| PoolMaps.PoolMap.PushNode | APGIServer/src/run_game_hashmap.cpp:310-322 | a node that is in no list becomes the first of the free list, and the lists partition the pool again |
| PoolMaps.PoolMap.Get | APGIServer/src/run_game_hashmap.cpp:80-104 | the record of the map under a key |
| PoolMaps.PoolMap.Add | APGIServer/src/run_game_hashmap.cpp:111-177 | adds to the map unless the key is 0, present, or the pool is used up, with the code for each |
| PoolMaps.PoolMap.Del | APGIServer/src/run_game_hashmap.cpp:184-228 | removes exactly the key; fails iff it was absent |
| PoolMaps.PoolMap.Clear | APGIServer/src/run_game_hashmap.cpp:257-276 | the empty map, every node free |
| PoolTables.AddGood | APGIServer/src/run_game_hashmap.cpp:143-171 | pointers, pool partition, denoted map and counter after an insertion |
| PoolTables.DelGood | APGIServer/src/run_game_hashmap.cpp:193-217 | the same after a removal anywhere in a chain |
| PoolTables.AllFree | APGIServer/src/run_game_hashmap.cpp:257-276 | with empty chains the free list is the whole pool |
| Readers.Reader.Refresh | CfrServer/src/reader.cpp:168-199 | carried bytes first, then the file; false iff nothing is left |
| Readers.Reader.AtEnd | CfrServer/src/reader.cpp:147-150 | true iff all bytes were handed out |
| Readers.Reader.Read | CfrServer/src/reader.cpp:232-255 | the next k bytes of the file wherever the buffer ends |
| Readers.Reader.ReadInt | CfrServer/src/reader.cpp:232-255 | the next four bytes, lowest first, as a signed 32-bit number |
| Readers.Reader.ReadUnsignedShort | CfrServer/src/reader.cpp:401-419 | the next two bytes, lowest first, as a number below 65536 |
| Readers.Reader.ReadDouble | CfrServer/src/reader.cpp:603-621 | the next eight bytes |
| CfrTables.LaneLoaded | CfrServer/src/cfr_street_values.cpp:234-282 | a load dies iff its file is shorter than hands times successors of the first visits; otherwise rows are the file cut up in first-visit order |
| CfrTables.WalkOrder | CfrServer/src/cfr_values.cpp:175-219 | a node is visited before what is below it, and its successors in order |
| CfrTables.FirstsPlaces | CfrServer/src/cfr_street_values.cpp:236-247 | a row is read at exactly the visits of nodes with a choice whose id no earlier such visit had, in visiting order |
| CfrTables.RowsInOrder | CfrServer/src/cfr_street_values.cpp:176-282 | the k-th node met for the first time holds the k-th stretch of the file: hands times its successors, behind those of the nodes before it |
| CfrTables.HandInRow | CfrServer/src/cfr_street_values.cpp:155-163 | the values of hand h lie within the row, at h times its successors |
| CfrTables.EndsExactly | CfrServer/src/cfr_values.cpp:336-341 | a reader ends at the end of its file iff the file holds one value per hand and successor of the first visits |
| CfrLoads.ParallelIsSequential | CfrServer/src/cfr_values.cpp:315-350 | once every thread has counted itself, the tables are those of the sequential load |
| CfrLoads.LoadSucceeds | CfrServer/src/cfr_values.cpp:328-350 | a lane passes the final check iff its file length is hands times the successors of its first visits |
| CfrLoads.CanLoad | CfrServer/src/cfr_values.cpp:315-350 | from any point of any interleaving some steps let every thread count itself |
| CfrLoads.OnlyAre | CfrServer/src/cfr_values.cpp:175-196 | a lane's visits are exactly those of its player and street |
| CfrLoads.SequentialIs | CfrServer/src/cfr_values.cpp:198-219 | what the sequential load leaves in every table |
| CfrValues.CfrValues.ReadNode | CfrServer/src/cfr_street_values.cpp:234-282 | one row of hands times successors values read value by value, unless there or without choice |
| CfrValues.CfrValues.ReadSingleFile | CfrServer/src/cfr_values.cpp:175-196 | the visits of one player and street, in walking order |
| CfrValues.CfrValues.Read | CfrServer/src/cfr_values.cpp:198-219 | the visits of one player, each to the table of its street |
| CfrValues.CfrValues.GetOneStrategyVals | CfrServer/src/cfr_street_values.cpp:155-163 | the values of a row from an offset on |
| CfrValues.CheckKeys | CfrServer/src/data_module.cpp:184-208 | accepts exactly the streets, players, nodes and offsets within the tables |
| CfrValues.CheckedKeysFit | CfrServer/src/data_module.cpp:201-205 | an accepted offset of a loaded row is within the row |
| CfrValues.CountNumNonterminals2 | CfrServer/src/nonterminal_ids.cpp:8-25 | every counter is raised to one more than the largest id below the node |
| CfrValues.CountNumNonterminals | CfrServer/src/nonterminal_ids.cpp:27-35 | every row index is below its count, and every count is one more than some row index |
| CfrValues.IndexInjective | CfrServer/src/nonterminal_ids.cpp:8-25 | players and streets have counters of their own |
| ActionKeys.GetActionSeq | APGIServer/src/matchstate_convertor.cpp:51-79 | the key of the history, and the largest amount raised to, at least 2 |
| ActionKeys.GetSingleActionStr | APGIServer/src/matchstate_convertor.cpp:81-101 | f, c, or r and the decimal size: a text that reads back to the action, and to nothing for an invalid one |
| ActionKeys.KeyGrows | APGIServer/src/matchstate_convertor.cpp:51-79 | a later street with actions adds a space and its letters, one without adds nothing |
| ActionKeys.DecodeKey | APGIServer/src/matchstate_convertor.cpp:51-101 | for every history the key reads back to its first street and its later non-empty streets, without invalid actions |
| ActionKeys.SameKey | APGIServer/src/matchstate_convertor.cpp:51-101 | histories share a key iff they agree on that |
| ActionKeys.KeysUnique | APGIServer/src/matchstate_convertor.cpp:51-101 | histories with a prefix of non-empty streets are read back, so distinct ones have distinct keys |
| ActionKeys.LostStreet | APGIServer/src/matchstate_convertor.cpp:57-63 | two histories with an empty street in different places and one key |

## Left out

- Sockets, message queues, protobuf, JSON, Redis, logging, timers and configuration: input and output around the modelled logic.
- The ACPC engine, `DTRobot` and the betting-tree lookup behind a request: their answers are parameters.
- `GameResultNotify` and `DoFinished`: they change scores and shown cards of a finished hand, not the run state or the betting.
- Aliasing of the record pointer that `CRunGameHashMap::Get` returns, and the last-use time it stores: `Get` returns the record's value.
- The bucket locks of the hash map: the handlers call it under the robot's lock and every operation here is one step.
- Negative keys of the hash map: the remainder is negative and the source indexes outside the bucket array.
- Partial values at the end of a file and `SeekTo`: a typed read is stated for no bytes left or enough.
- Readers.Reader.ReadDouble: gives the eight bytes, not the floating-point number they encode.
- Rounding of discount factors and of CFR values: factors are reals and values are opaque.
- Wrap-around of the 32-bit iteration counters, of board counts and of lookup codes: they are unbounded here; five cards of a 52-card deck give codes below 2^31.
- CfrLoads.ParallelIsSequential: takes the outer per-player arrays as allocated and reading one node as one step; the source allocates them lazily without a lock.
- `AllocateAndClear2`, the other typed reads, `client_hashmap.cpp`: the same shapes as the modelled ones.
- TypicalCards.Enumerate: one recursion in place of the three written-out loop nests.
- `TaskExecutor::init`: the consumers are taken as started and counted at once.
- common.py, roomlogic/, timeoutlogic/, benchmark/, generated protocol code: no clean specification or thin handlers.

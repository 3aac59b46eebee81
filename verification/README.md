# Verified models of the game server's core

This project models the parts of the server whose correctness depends on invariants over many steps, and proves what
those parts are for. Each part is a small group of files.

| part | files |
|---|---|
| leaderboard index: order-statistic left-leaning red-black tree | `ScoreIndex`, `LlrbTree` (the tree as a value), `LlrbNode`, `LlrbLinks`, `LlrbPaths`, `LlrbLeftovers`, `LlrbHeap` (linked nodes updated in place), `LlrbClimb`, `Leaderboard` |
| path finding: all shortest paths with next hops | `ShortestPaths`, `MapGraph` |
| ring between two threads | `AsyncQueue`, `RingItems` |
| tank actions and game registries | `TankActions`, `TankEffects`, `Tank`, `Ordering`, `Registry`, `GameUpdates`, `GameCore`, `GameRuns`, `GameActions` |
| replication to clients over an unreliable network | `Replication`, `ReplicationHistory` |
| resending of unacknowledged messages | `Resend`, `ResendSlots` |
| incremental HTTP/1.0 request parser | `HttpGrammar`, `HttpParser`, `HttpDrafts` |
| self-relative message packing | `Packing` |

Where the source updates objects, arrays or maps in place, a class with those fields does the same and each of its
methods is proved equal to a step of a function on values; the properties over whole runs are lemmas about that
function. Numbers are unbounded, `float` is `real`, a byte of a request is the character with its code, and a byte of a
packed message is a number below 256. Clocks, random numbers, geometry, and what the network does are parameters or
events with every possible outcome.

## What was found

- Deleting an index entry whose node has two children also deletes the next entry, because two independent branches
  run one after the other. Taking a user out and putting it back therefore loses the next user on the leaderboard
  exactly when the user's node has two children (`Leaderboard.ChangeUserLosesSuccessor`).
- Deleting the only entry never takes it out. It follows a null parent if no rotation has left a parent link on its node
  (`Leaderboard.FirstKeyCannotGo`); otherwise nothing changes and the key stays (`Leaderboard.LoneKeyStays`). All other
  deletions of a present key remove it (`LlrbHeap.RBTree.MyDelete`).
- A rotation at the root leaves the new root's parent link on its own child, and a deletion may leave it on a removed
  node. Stepping an iterator past the last entry then depends on the first node of the tree on the parent chain from
  the root: it ends with nothing exactly if the root has no parent link, goes round for ever exactly if that node is on
  the right spine, and otherwise shows an entry of the tree again (`LlrbClimb.PastTheEndExactly`). All three happen:
  `Leaderboard.InsertBackwards`, `Leaderboard.DropLastOfThree`, `Leaderboard.InsertForwards`. A page that reaches the
  last entry is served unless that step goes round.
- Searching for an absent entry does not set the rank: it adds the number of entries ahead to whatever the variable held.
- The diagonal of the path table starts at the sentinel, so going from a node to itself is charged the shortest round
  trip; `findPath` charges it when entry and exit node are the same. The exit node itself is not on the returned line.
- In all but the first message of a batch, the pointers of the blocks of earlier messages are counted but never written.
- A removal that stamps no event is never told to a client that acknowledged the object's last event, until another
  event follows (`Replication.UnstampedRemovalIsNeverTold`; `Replication.SettledIsReached` gives a run).
- A computer-controlled tank uses client id 0 for its own actions. It takes a message with that id only if it is the
  first one and no update came before (`TankActions.AiTakesItsIdOnlyAtFirst`). Because old entries are forgotten in the
  order of client ids, that renewed entry shields all others: such a tank never forgets a client id from 0 on, and takes
  no second message with it (`TankEffects.AiNeverForgets`).
- Sixteen messages can wait for their acknowledgement on a port. The next submission takes the slot of the one that has
  waited longest, which is then never resent (`ResendSlots.SixteenInARow`). A message whose slot was acknowledged or
  taken before its last send is not freed (`ResendSlots.MessagesAreFreedInTime` says when it is).

## Model

| member | source | states |
|---|---|---|
| Scores.LessIsStrictTotalOrder | DB/DBAccess.cpp:613-617 | higher score first and then higher user id; a strict total order |
| Scores.RankIsPosition | base/rbtree.inl:346-367 | in a sorted sequence the number of smaller entries is the position |
| Scores.RankSplits | base/rbtree.inl:346-367 | exactly the entries before the rank are smaller, also for an absent entry |
| LlrbTree.RepairKeepsOrder | base/rbtree.inl:222-233 | rotations and the colour flip keep the in-order sequence |
| LlrbTree.InsertBelowContents | base/rbtree.inl:204-236 | inserting below a node inserts the value in order, once |
| LlrbTree.InsertBelowLeans | base/rbtree.inl:222-233 | after the repairs no right link is red and no two red links follow each other, but for one link at the top that the caller repairs, also after the unguarded rotation with two red children |
| LlrbTree.InsertBelowBalances | base/rbtree.inl:222-233 | insertion keeps all black heights equal |
| LlrbTree.InsertIsCorrect | base/rbtree.inl:197-236 | insertion into any valid tree gives a valid tree with a black root whose keys are the old ones and the value; a balanced tree stays balanced |
| LlrbTree.HeightIsLogarithmic | base/rbtree.inl:203-236 | (n + 1)^2 is at least 2 to the height in every balanced left-leaning tree with a black root |
| LlrbTree.DeleteAtContents | base/rbtree.inl:449-469 | deleting the i-th key removes that key, and the next one too exactly when the node has two children |
| LlrbTree.DeleteAtShape | base/rbtree.inl:449-469 | deletion leaves order, colours and lean as a valid tree needs them |
| LlrbTree.DeleteIsCorrect | base/rbtree.inl:449-476 | deletion from any valid tree gives a valid tree with exactly the remaining keys |
| LlrbTree.DropByKey | base/rbtree.inl:470-476 | deletion by key deletes at the key's position, unless the key is alone |
| LlrbTree.DropKeys | base/rbtree.inl:470-476 | deletion by an absent key changes nothing; by a present one it leaves all keys but that one and, if its node has two children, the next; a lone key stays |
| LlrbTree.EveryHistoryIsValid | base/rbtree.inl:197-476 | every mix of insertions and deletions keeps the tree valid; a lone key stays |
| LlrbTree.EveryOperationInAHistory | base/rbtree.inl:197-476 | after any history, an insertion adds its key and loses none, and a deletion changes nothing unless its key is there |
| LlrbTree.NewUsersAreAdded | DB/DBAccess.cpp:621-639 | changing users who are not in the index adds each of them and loses nobody |
| LlrbTree.InsertOnlyHistoryIsShallow | base/rbtree.inl:197-236 | with insertions alone the tree stays balanced and (n + 1)^2 stays at least 2 to the height |
| LlrbNode.Node.RefreshChild | base/rbtree.h:42-51 | recounting one node and, while counts change, its parents makes every count exact that depends on it, also past a stale root parent |
| LlrbNode.Node.SetLeft | base/rbtree.h:29-35 | a new left child gets its parent link and all counts become exact |
| LlrbNode.Node.SetRight | base/rbtree.h:36-41 | a new right child gets its parent link and all counts become exact |
| LlrbLinks.WalkMatchesTree | base/rbtree.h:19-51 | the linked nodes in order hold the keys of the tree they represent |
| LlrbLinks.CountedIsLocallyExact | base/rbtree.h:42-51 | right subtree sizes are right sums of the children's counts |
| LlrbLinks.LocallyExactIsCounted | base/rbtree.h:42-51 | right sums of the children's counts are right subtree sizes |
| LlrbHeap.RBTree.LeftRotation | base/rbtree.inl:254-265 | in place: the three subtrees and all links are those of the rotated tree, and counts stay exact but for the holder |
| LlrbHeap.RBTree.RightRotation | base/rbtree.inl:266-277 | the mirror of the left rotation |
| LlrbHeap.RBTree.FlipColors | base/rbtree.inl:278-283 | in place: three colours change and nothing else |
| LlrbHeap.RBTree.RecursiveInsertion | base/rbtree.inl:203-236 | in place: the subtree becomes the one that insertion below it gives, counts are exact but for the holder, and which parent link the new subtree root is left with |
| LlrbHeap.RBTree.Insert | base/rbtree.inl:197-201 | in place: links, counts and colours of the whole tree are those of a valid tree with the value inserted; no removed node comes back |
| LlrbHeap.RBTree.Size | base/rbtree.inl:300-305 | the root's count is the number of keys |
| LlrbHeap.RBTree.ByIndex | base/rbtree.inl:307-344 | the node with the i-th key, and null exactly outside 0 to size - 1 |
| LlrbHeap.RBTree.Search | base/rbtree.inl:345-367 | finds a key exactly if it is present, with its rank and the node of that rank; an absent key only adds to the given rank |
| LlrbHeap.RBTree.TreeSuccessor | base/rbtree.inl:415-423 | the node with the next key in the right subtree |
| LlrbHeap.RBTree.TreeMinor | base/rbtree.inl:425-433 | the node with the previous key in the left subtree |
| LlrbHeap.RBTree.RemoveLeaf | base/rbtree.inl:435-445 | in place: a leaf leaves the tree, and all counts become exact; a lone root under a left-over parent stays as it is |
| LlrbHeap.RBTree.DeleteNode | base/rbtree.inl:449-469 | in place: values are shifted and leaves dropped as deletion at a subtree root does, with exact counts; a lone root stays |
| LlrbHeap.RBTree.DeleteWithin | base/rbtree.inl:449-469 | in place: deletion at any node changes the whole tree as deletion at its position does; a lone root stays |
| LlrbHeap.RBTree.MyDelete | base/rbtree.inl:470-476 | in place: an absent key changes nothing; a present one leaves exactly the remaining keys; every node is still in the tree or set aside, and no parent link changes; refused exactly for the only key under a root without a parent link |
| LlrbLeftovers.HomingAfterRemoval | base/rbtree.inl:435-445 | parent links of removed nodes always lead back to a node of the tree |
| Leaderboard.Next | base/rbtree.h:77-106 | one step goes from the i-th node to the next one; from the last to null or, over a left-over link, to the node after where that leads |
| Leaderboard.Climb | base/rbtree.h:87-98 | climbing ends where its rounds end: at the first node whose left link it leaves, or at null |
| Leaderboard.GetTopHundred | DB/DBAccess.cpp:236-256 | the page holds exactly the user ids of the ranks from `shift` on: `count` of them, or all that are left when the page reaches beyond the end, also to the last rank whenever the step past it ends |
| Leaderboard.GetUserRank | DB/DBAccess.cpp:226-234 | the rank of a present entry is its position; of an absent one what was there plus the entries ahead |
| Leaderboard.RankAndPositionAreInverse | base/rbtree.inl:307-367 | looking up by position and by key are inverse |
| Leaderboard.ChangeUser | DB/DBAccess.cpp:621-639 | users below 1010 are left alone; one who is not in the index is added in order and nobody is lost; one who is in it stays, and only a user behind a node with two children is lost; refused exactly where the deletion is |
| Leaderboard.ChangeUserLosesSuccessor | DB/DBAccess.cpp:621-639 | putting a user back loses the next user exactly when the user's node has two children |
| Leaderboard.DeleteCanTakeTwoKeys | base/rbtree.inl:458-468 | deleting the middle one of three keys leaves one |
| LlrbClimb.RoundsFrom | base/rbtree.h:87-98 | inside the tree climbing finds the first node after the subtree, or else comes to the root |
| LlrbClimb.CircleIsClosed | base/rbtree.h:87-98 | from the right spine, and from removed nodes that lead back to it, climbing stays among them |
| LlrbClimb.PastTheEnd | base/rbtree.h:77-106 | from the last node climbing otherwise ends, with nothing exactly if the root has no parent link, or with the node after where the link leads |
| LlrbClimb.PastTheEndExactly | base/rbtree.h:77-106 | each of the three outcomes of stepping past the last node if and only if its condition on the root's parent link holds |
| Leaderboard.InsertForwards | base/rbtree.inl:197-277 | two ascending insertions lead to a state where the step past the last entry shows the last entry again |
| Leaderboard.InsertBackwards | base/rbtree.inl:197-277 | three descending insertions lead to a state where it goes round for ever |
| Leaderboard.DropLastOfThree | base/rbtree.inl:435-476 | deleting the last of them leaves the link on a removed node, and it still goes round |
| Leaderboard.LoneKeyStays | base/rbtree.inl:435-476 | deleting two of three leaves a key that a further deletion does not take out |
| Leaderboard.FirstKeyCannotGo | base/rbtree.inl:435-476 | the only key ever inserted cannot be deleted |
| ShortestPaths.PartlyReadsOld | Classes/GameCore/Ai/tools/MapGraph.cpp:112-118 | improving in place reads the same values as improving all entries at once |
| ShortestPaths.StageIsShortest | Classes/GameCore/Ai/tools/MapGraph.cpp:112-118 | a stage makes all distances least over walks with one more possible node between, also on the diagonal and with zero weights |
| ShortestPaths.StageAllContinue | Classes/GameCore/Ai/tools/MapGraph.cpp:115-118 | a stage keeps every next hop an edge whose far entry continues the walk |
| ShortestPaths.InitialIsSound | Classes/GameCore/Ai/tools/MapGraph.cpp:105-111 | the table of edges holds the least walks without nodes between |
| ShortestPaths.DistancesAreLeast | Classes/GameCore/Ai/tools/MapGraph.cpp:102-122 | a finished entry is the least weight of any non-empty walk, or the sentinel, and its next hop begins such a walk |
| ShortestPaths.NextHop | Classes/GameCore/Ai/tools/MapGraph.cpp:172-175 | a next hop walks an edge, leaves exactly the rest of the distance, and fewer hops |
| ShortestPaths.WalkedIsRoute | Classes/GameCore/Ai/tools/MapGraph.cpp:172-175 | following next hops visits no node twice, so at most as many as there are |
| MapGraph.MapGraph.PushNode | Classes/GameCore/Ai/tools/MapGraph.h:69-83 | a node's id is its position |
| MapGraph.MapGraph.CreateEdges | Classes/GameCore/Ai/tools/MapGraph.cpp:76-100 | every node gains its edges and nothing else changes |
| MapGraph.MapGraph.ReachIsJoined | Classes/GameCore/Ai/tools/MapGraph.cpp:76-100 | the edges gained lead exactly to the other nodes that are near and in clear sight, one to each |
| MapGraph.MapGraph.CreatedGraph | Classes/GameCore/Ai/tools/MapGraph.cpp:76-100 | fresh nodes are joined exactly when near and clear, at their distance |
| MapGraph.MapGraph.CreatedGraphIsOk | Classes/GameCore/Ai/tools/MapGraph.cpp:76-100 | such a graph is fit for the table |
| MapGraph.MapGraph.BelMan | Classes/GameCore/Ai/tools/MapGraph.cpp:102-122 | the flat table holds least distances and consistent next hops for all pairs |
| MapGraph.MapGraph.InitEdges | Classes/GameCore/Ai/tools/MapGraph.cpp:105-111 | every entry is the sentinel or its edge |
| MapGraph.MapGraph.RelaxStage | Classes/GameCore/Ai/tools/MapGraph.cpp:112-118 | one stage in place over the flat array is one stage of the table |
| MapGraph.MapGraph.FindNodes | Classes/GameCore/Ai/tools/MapGraph.cpp:124-150 | exactly the near visible nodes, or else the first closest visible one below 100000, in order |
| MapGraph.MapGraph.WaysIn | Classes/GameCore/Ai/tools/MapGraph.cpp:124-150 | a near node in clear sight is a way in, and then only such nodes are; otherwise the only way in is a closest node in clear sight, less than 100000 away |
| MapGraph.MapGraph.BestPair | Classes/GameCore/Ai/tools/MapGraph.cpp:155-168 | no pair of access nodes costs less, and the cost found is that of a pair or the sentinel |
| MapGraph.MapGraph.CostIsLeast | Classes/GameCore/Ai/tools/MapGraph.cpp:155-168 | no way in, along a walk and out costs less than the stored cost, and some walk costs as much unless it leads over the sentinel |
| MapGraph.MapGraph.FollowHops | Classes/GameCore/Ai/tools/MapGraph.cpp:169-175 | the loop ends; the nodes pushed are a route of edges without repetition, the exit node left out |
| MapGraph.MapGraph.FindPath | Classes/GameCore/Ai/tools/MapGraph.cpp:152-181 | the cost is the least over all access nodes; the line goes along a route, is no longer than the cost, and is the straight line when there is no route |
| AsyncQueue.AheadIsDifference | base/asyncmap.h:152-169 | the size functions give the true distance of positions less than a lap apart |
| AsyncQueue.StepKeeps | base/asyncmap.h:108-180 | every read and write of either thread keeps the counts, the stale reads in bounds, and every item in its slot |
| AsyncQueue.StepRefines | base/asyncmap.h:108-180 | every step of either thread is one step of a queue with reserved and committed items, or none |
| AsyncQueue.EveryRunIsFifo | base/asyncmap.h:108-180 | in every interleaving items come out in order, each once, what `front` shows is the oldest committed item, and at most the size less two slots are reserved and not popped |
| AsyncQueue.ReservedSlotIsFree | base/asyncmap.h:120-135 | a slot being reserved holds no item still to be popped |
| AsyncQueue.ReserveAlone | base/asyncmap.h:120-135 | a reservation run alone is refused exactly when the size less two are reserved and not popped |
| AsyncQueue.CompleteAlone | base/asyncmap.h:136-142 | a completion run alone completes the oldest reserved slot exactly if there is one |
| AsyncQueue.PopAlone | base/asyncmap.h:144-149 | a pop run alone pops the oldest completed slot exactly if there is one |
| AsyncQueue.AsyncQueue.ReserveNew | base/asyncmap.h:120-135 | in place: the three steps of a reservation; the slot, or -1 for null |
| AsyncQueue.AsyncQueue.CompleteLastReserved | base/asyncmap.h:136-142 | in place: the two steps of a completion |
| AsyncQueue.AsyncQueue.Pop | base/asyncmap.h:144-149 | in place: the three steps of a pop |
| AsyncQueue.RunsCompose | base/asyncmap.h:108-180 | operations one after another are one run of their steps |
| RingItems.SlotsHoldWhatWasWritten | base/asyncmap.h:108-149 | in every interleaving a slot holds the last value written into it while it was reserved and not completed |
| RingItems.ItemsAreWhatWasWritten | base/asyncmap.h:136-142 | in every interleaving the item that a completion adds is that value |
| HttpGrammar.TokenCharacters | http/request_parser.cpp:285-307 | the characters of tokens are the letters, the digits and fifteen others |
| HttpGrammar.DecimalReadsBack | http/request_parser.cpp:125-169 | every number written in decimal is read as itself |
| HttpParser.RequestParser.Consume | http/request_parser.cpp:27-283 | in place: the state, request and verdict after one byte |
| HttpParser.RequestParser.Parse | http/request_parser.hpp:38-49 | in place: feeds bytes until the first verdict and returns how many were taken |
| HttpParser.ChunksDoNotMatter | http/request_parser.hpp:38-49 | feeding in two pieces gives the verdict, request and count of feeding at once |
| HttpParser.AnySplitIsTheSame | http/request_parser.hpp:38-49 | the same for any split into any number of pieces |
| HttpParser.GoesRequestLine | http/request_parser.cpp:31-185 | a printed request line is read back |
| HttpParser.GoesFold | http/request_parser.cpp:192-227 | a continuation line lengthens the last value without its leading blanks; a blank one adds nothing |
| HttpParser.GoesLines | http/request_parser.cpp:186-277 | printed header lines are read back |
| HttpParser.PrintedIsAccepted | http/request_parser.cpp:27-283 | any printed well-formed request is accepted at its last byte, whatever follows, with its own reading |
| HttpDrafts.ByteKeeps | http/request_parser.cpp:27-283 | in every state the bytes taken print the message so far, and the request says what it says |
| HttpDrafts.AcceptedIsPrinted | http/request_parser.cpp:27-283 | what is accepted is a printed well-formed request and reads as built |
| HttpDrafts.AcceptedExactlyWhenPrinted | http/request_parser.cpp:27-283 | accepted at byte n with request q if and only if the first n bytes are a sentence that reads as q |
| HttpDrafts.EveryStateCanFinish | http/request_parser.cpp:27-283 | from every state some continuation is accepted |
| HttpDrafts.UndecidedExactlyWhenCompletable | http/request_parser.cpp:27-283 | input is undecided if and only if it can still be completed, so the first wrong byte is rejected |
| Resend.BaseServer.GetReserved | Engine/BaseServer.h:281-290 | in place: a canceled slot if there is one, and the head stays; otherwise the slot behind the head, which becomes the head |
| Resend.BaseServer.UdpSendAndPushOutBoxToHandleAck | Engine/BaseServer.cpp:722-737 | in place: the slot, queue entry and first send of a submission |
| Resend.BaseServer.RemoveFromOutBox | Engine/BaseServer.cpp:48-58 | in place: every slot of the port with that message id is canceled, every other is as it was, and nothing else changes |
| Resend.BaseServer.SendAgain | Engine/BaseServer.cpp:83-100 | in place: one more send and, while tries are left, a new entry |
| Resend.BaseServer.Update | Engine/BaseServer.h:412-440 | in place: takes off what is due, then sends what is still wanted |
| Resend.SubmitKeeps | Engine/BaseServer.cpp:722-737 | a submission keeps the queue sorted by time with one entry for each version |
| Resend.SendKeeps | Engine/BaseServer.cpp:83-100 | a resend keeps the same, and never meets a deleted message |
| Resend.DropKeeps | Engine/BaseServer.h:421-425 | dropping an outdated entry keeps the same |
| Resend.UpdateIsDrain | Engine/BaseServer.h:412-440 | taking all due entries first comes to the same as sending one after the other |
| Resend.UpdateSendsWhatIsDue | Engine/BaseServer.h:412-440 | an update sends exactly the unacknowledged submissions with tries left whose last send is 200 ms past, once each, and leaves no due entry |
| Resend.EveryRunResendsProperly | Engine/BaseServer.cpp:48-100 | in every run a submission is sent at most once more than its tries, one at least, any two sends at least 200 ms apart |
| Resend.AckSilences | Engine/BaseServer.cpp:48-58 | an acknowledgement silences every submission of that message on that port |
| Resend.NeverAgainAfterAck | Engine/BaseServer.h:412-440 | whatever happens afterwards, none of them is sent again |
| ResendSlots.SubmissionTakesSlot | Engine/BaseServer.cpp:722-737 | a submission is sent at once and takes a canceled slot, or the next one around if there is none; it silences exactly the submission that held that slot |
| ResendSlots.CanceledSlotsGoFirst | Engine/BaseServer.h:281-290 | while the port has a canceled slot, a submission silences no other |
| ResendSlots.AckSilencesExactly | Engine/BaseServer.cpp:48-58 | an acknowledgement silences the submissions of that message on that port and no other |
| ResendSlots.UpdateSendsExactly | Engine/BaseServer.h:412-440 | an update sends a submission, once, if and only if it keeps its slot, has tries left and was last sent 200 ms ago or longer |
| ResendSlots.SlotsAreTakenInTurn | Engine/BaseServer.h:281-290 | in every run without canceled slots on a port, its submissions take the slots in turn, and each keeps its slot exactly until that slot's turn |
| ResendSlots.SixteenInARow | Engine/BaseServer.h:281-290 | in such a run the first sixteen slots taken are different, and a submission keeps its slot until exactly the sixteenth further one |
| ResendSlots.MessagesAreFreedInTime | Engine/BaseServer.cpp:83-100 | in every run the message in a slot is freed exactly when its submission has had its last send |
| Packing.WordReadsBack | Classes/game_message/Messages.h:274-309 | a 32-bit field reads back |
| Packing.StateMessage.InitArray | Classes/game_message/Messages.h:278-282 | in place: the table starts where the data ended |
| Packing.StateMessage.InitPointer | Classes/game_message/Messages.h:301-304 | in place: the pointer leads to where the data ended |
| Packing.StateMessage.GetArray | Classes/Room.cpp:34-51 | each block from `offset` on lies where its pointer leads, the size is header, table and these blocks, and all bytes before, and earlier pointers, are unchanged |
| Packing.RegionsAreDisjoint | Classes/Room.cpp:34-51 | blocks do not overlap and lie between the table and the end |
| Packing.SendAll | Classes/Room.cpp:127-142 | messages of sixteen carry all blocks, and their payload adds up to that of the blocks, as long as each message fits its buffer |
| Packing.ThousandBlocksDoNotFit | Classes/Room.cpp:34-51 | from a thousand blocks on the last message cannot fit, since its table counts all earlier blocks |
| Packing.SmallBlocksFit | Classes/Room.cpp:120-142 | up to 599 blocks of at most a hundred bytes always fit |
| Packing.EveryBlockReadsBack | Classes/Room.cpp:127-142 | every block is in exactly one message and reads back there through its pointer |
| TankActions.InsertKeepsOrder | Classes/GameCore/Tank.h:180 | the queue stays in the order of triggers, then of arrival |
| TankActions.PutReplaces | Classes/GameCore/Tank.h:181 | the memory holds one entry for each client id, the newest |
| TankActions.RunDueTakesFront | Classes/GameCore/Tank.cpp:172-184 | exactly the actions that trigger now run, in order, and the rest stay |
| TankActions.RunDueSpendsShots | Classes/GameCore/Tank.cpp:250-279 | every missile costs one shot, and shots do not go below zero |
| TankActions.TakenRunsExactlyOnce | Classes/Room.cpp:235-270 | in every run a taken action triggers when the message says, or in two steps if that is earlier, and has run exactly once, in the step of its trigger, when that is past |
| TankActions.RepeatsAreIgnored | Classes/GameCore/Tank.cpp:158-164 | no message with its client id is taken while the time is at most a thousand past its trigger |
| TankActions.ShotsAreBounded | Classes/GameCore/Tank.cpp:220-254 | shots stay between 0 and 3, and any stretch of k updates fires at most 3 + 0.03 k |
| TankActions.QuietTankRefills | Classes/GameCore/Tank.cpp:230-232 | a stretch of k updates without shots adds exactly 0.03 k, up to 3 |
| TankActions.StartIsInv | Classes/GameCore/Tank.cpp:125-144 | a new tank meets the invariant |
| TankActions.AiTakesItsIdOnlyAtFirst | Classes/GameCore/Ai/RandomTankAi.cpp:19-32 | on a computer player's tank a message with its client id is taken exactly if it is the first and no update came before |
| TankEffects.UpdateRunsWhatIsDue | Classes/GameCore/Tank.cpp:145-184 | in every run an update runs exactly the actions taken for its step, in the order of arrival; the last move sets course and speed, which otherwise stay, and the first shots fire, each its own id, while a whole one is left |
| TankEffects.MessageIsTaken | Classes/Room.cpp:235-270 | a message whose client id is not remembered is taken with its own angle, speed or shot id, for its own time or two steps ahead if that is earlier |
| TankEffects.MoveTakesEffect | Classes/GameCore/Tank.h:151-158 | after any further events, the update at its time gives the tank the course of a client's move and its speed or the nearer bound, unless a later move came for that time |
| TankEffects.ShotTakesEffect | Classes/GameCore/Tank.cpp:250-279 | after any further events, the update at its time fires a client's shot under its own id if and only if a whole one is left after those that came earlier for that time |
| TankEffects.AiMovesInEveryUpdate | Classes/GameCore/Ai/RandomTankAi.cpp:19-32 | every update takes a move of the computer player for the next one, with its course and speed 1000 |
| TankEffects.UpdateForgetsExactly | Classes/GameCore/Tank.cpp:158-164 | an update forgets an entry if and only if it and all with smaller client ids are more than a thousand steps past |
| TankEffects.AiNeverForgets | Classes/GameCore/Tank.cpp:158-164 | in every run of a computer player's tank, a client id from 0 on that is remembered stays so, and no message with it is taken |
| Tank.Tank.GetAction | Classes/GameCore/Tank.cpp:377-381 | the remembered action of a client id, if any |
| Tank.Tank.GetMsg | Classes/Room.cpp:243-270 | in place: a message is taken exactly when its client id is not remembered |
| Tank.Tank.EraseOldMemories | Classes/GameCore/Tank.cpp:158-164 | in place: old entries go only up to the first recent one |
| Tank.Tank.RunTriggered | Classes/GameCore/Tank.cpp:172-184 | in place: runs what triggers now; course and speed are those of the last move, or stay without one, and the first shots fire, each its own id, while a whole one is left |
| Tank.Tank.Update | Classes/GameCore/Tank.cpp:145-248 | in place: one update of queue, memory, shots and step, with that effect on course, speed and missiles |
| Registry.AddObjectKeeps | Classes/GameCore/GameCore.h:160-165 | filing an object under an unused id hides no other |
| Registry.AddShotKeeps | Classes/GameCore/GameCore.cpp:147-163 | a fired missile's id is new, and the waiting shots' ids stay unused |
| Registry.UpdateTankKeeps | Classes/GameCore/Tank.cpp:220-279 | a tank's update keeps all registries, whatever it fires |
| Registry.UpdateKeeps | Classes/GameCore/GameCore.cpp:206-242 | a whole update of the game keeps them |
| Registry.EveryRunKeepsPartsDisjoint | Classes/GameCore/GameCore.cpp:206-242 | in every run tanks and missiles are disjoint parts of all objects, with the same objects |
| Registry.IdsAreNeverReused | Classes/GameCore/GameCore.h:137-165 | in every run an id leads to the same object as long as it is filed |
| GameUpdates.PurgedExactly | Classes/GameCore/GameCore.cpp:217-224 | the purge takes exactly the entries of marked objects out of the three registries and changes no other |
| GameUpdates.UpdateRemovesExactly | Classes/GameCore/GameCore.cpp:206-242 | in every run an update takes out exactly the objects that are marked and the tanks found dead; all others stay filed under their ids |
| GameUpdates.UpdateMarksExactly | Classes/GameCore/GameCore.cpp:206-242 | in every run an update marks exactly the dead tanks and the filed missiles that missed or hit |
| GameUpdates.UpdateFilesExactly | Classes/GameCore/GameCore.cpp:147-163 | in every run exactly the missiles fired in an update are new, each filed under its own id in all three registries |
| GameUpdates.PlayerGetsATank | Classes/GameCore/GameCore.cpp:12-32 | a player without a tank gets a new one, filed among tanks and all objects; the player leads to it and nothing else changes |
| GameUpdates.BlockJoins | Classes/GameCore/GameCore.h:160-165 | a block is filed under a new id and nothing else changes |
| GameUpdates.ZombiesStayUntilForgotten | Classes/GameCore/GameCore.cpp:206-242 | in every run an object is known to clients' updates until it is forgotten, and not longer |
| GameRuns.RegisteredTankTicks | Classes/GameCore/GameCore.cpp:228-229 | an update of the game is exactly one update of every tank that stays, in step with the game |
| GameRuns.RegisteredTankGetsMessages | Classes/Room.cpp:235-270 | a message does to its player's tank what the tank's own run says, and nothing to others |
| GameRuns.NewTankStarts | Classes/GameCore/GameCore.cpp:12-32 | a new player leads to a new tank that starts its own run |
| GameRuns.TankLivesItsOwnRun | Classes/GameCore/GameCore.cpp:206-242 | over a whole run of the game a tank that stays registered lives one run of its own |
| GameRuns.ActionsInTheGame | Classes/Room.cpp:235-270 | in every run of the game an action taken runs exactly once, in the step of its trigger, while its tank stays, and the tank's shots stay within its bucket |
| GameRuns.TargetsAreAlwaysFiled | Classes/GameCore/Tank.cpp:250-268 | in every run, at every shot in the middle of an update, every tank that may be aimed at is filed among all objects |
| GameActions.EveryTankLives | Classes/GameCore/GameCore.cpp:206-242 | in every run of the game each registered tank lives a run of its own, within its bounds, with top speed 400 |
| GameActions.MoveInTheGame | Classes/GameCore/Tank.h:151-158 | in every run of the game, the update at its time gives the player's tank the course and bounded speed of the client's move, unless a later one was taken for that time |
| GameActions.ShotInTheGame | Classes/GameCore/Tank.cpp:250-279 | in every run of the game, the update at its time brings the missile of a client's shot into use, under the id that its message got, if and only if a whole shot is left for it |
| GameCore.GameCore.AddObject | Classes/GameCore/GameCore.h:160-165 | in place: the object is filed in both registries |
| GameCore.GameCore.AddPlayerWithTank | Classes/GameCore/GameCore.cpp:12-32 | in place: a player without a tank gets one |
| GameCore.GameCore.InitShot | Classes/GameCore/GameCore.cpp:147-163 | in place: a missile is filed under its action's id, and one id is used up |
| GameCore.GameCore.Purge | Classes/GameCore/GameCore.cpp:217-224 | in place: an id stays in each of the three registries if and only if it was there and its object is not marked, with the same object |
| GameCore.GameCore.Update | Classes/GameCore/GameCore.cpp:206-242 | in place: one update, tanks visited in the order of ids |
| GameCore.GameCore.SuggestTarget | Classes/GameCore/Tank.cpp:360-376 | also in the middle of an update: the nearest other tank in range that is not to be removed nor on the same team, the first of equally near ones, always a filed object; 0 exactly if there is none |
| Replication.ServerViewHandler.EventAck | Classes/Room.cpp:165-170 | in place: the latest acknowledged time, never an earlier one; no other entry changes |
| Replication.ServerViewHandler.InitClient | Classes/Room.cpp:81-125 | in place: exactly the objects not skipped are sent, once each; exactly those removed and more than 180 steps past their last event are forgotten |
| Replication.DeliverKeeps | Classes/GameCore/Tank.cpp:414-423 | delivery in any order, repeated or late, keeps every acknowledged time one the client holds |
| Replication.EveryRunKeeps | Classes/Room.cpp:81-125 | in every run acknowledged times are held by the client, and states sent since the last event are the present version |
| Replication.SkippedMeansKnown | Classes/Room.cpp:101-103 | an object is skipped only if the client process holds a state at or after its last event, of the present version |
| Replication.AnsweredMeansSkipped | Classes/Room.cpp:165-170 | once such a state was delivered and its answer arrived, the object is skipped |
| Replication.EventsAreSent | Classes/Room.cpp:101-125 | a new event is sent to every client process whatever it acknowledged before |
| Replication.SettledIsSilent | Classes/Room.cpp:101-103 | over any further events without a stamp, nothing of an object is sent to a client that acknowledged its last event |
| Replication.UnstampedRemovalIsNeverTold | Classes/GameCore/Misle.cpp:70-75 | in particular not its removal, if that stamps no event |
| Replication.UnstampedRemovalIsToldExactly | Classes/GameCore/Misle.cpp:70-75 | a client's next update tells such a removal if and only if the object is not forgotten and its last event not acknowledged |
| Replication.SettledIsReached | Classes/Room.cpp:81-125 | a run in which an object is filed, sent, received and acknowledged leads there |
| ReplicationHistory.HistoryIsRemembered | Classes/Room.cpp:81-125 | in every run the server's state of an object is its history: when its last event was, how many there were, whether it was removed, and whether it is forgotten |
| ReplicationHistory.AcksAreRemembered | Classes/Room.cpp:165-170 | in every run the acknowledged time is the latest of all answers that arrived from the client for the object |
| ReplicationHistory.LiveObjectsStay | Classes/Room.cpp:93-100 | in every run an object that was never removed is never forgotten, however long ago its last event was |
| ReplicationHistory.ForgottenExactly | Classes/Room.cpp:93-100 | in every run an object is forgotten exactly at the first update of a client that finds it removed and more than 180 steps past its last event |
| ReplicationHistory.UpdatesSendTheNews | Classes/Room.cpp:81-125 | in every run a client's update sends exactly the present states of the objects neither forgotten nor long gone whose last event it has not acknowledged |
| ReplicationHistory.LiveObjectsAreSentExactly | Classes/Room.cpp:101-125 | in every run a live object is sent if and only if the client has not acknowledged its last event |

## Left out

- Sockets, timers, TCP connections, the HTTP server loop: input and output around the modelled parts.
- SQL, shared memory, logging and JSON: foreign calls.
- `RB_DELETE`, `RB_DELETE_FIXUP`, `delete_one_child` and `delete_case1` to `delete_case6`: not called by live code.
- The tree for value types other than the leaderboard entry: the one live use is modelled.
- LlrbHeap.RBTree.MyDelete: where the source follows a null parent it returns false and changes nothing; what the program does from there is undefined.
- Leaderboard.GetTopHundred: does not cover pages that start at a negative rank, where the source follows a null node, nor a page to the last entry when the step past it never ends.
- Packing.SendAll: does not cover lists of which some message outgrows its 4096-byte buffer, which the source does not check; the table of each message has 4 bytes for every earlier block too.
- Collisions, missile flight, angles and the line-of-sight test: geometry; only distances and their triangle inequality are used, and which objects die, miss or hit is arbitrary.
- `refreshEdge`: its comparison has no effect. `init3_3` and `add_nodes` only choose node positions.
- `AsyncQueue::clear`: it is not meant to run beside the two threads. Filling a slot is modelled as a write between reservation and completion.
- Weak memory effects in the ring, and integer widths and wrap-around everywhere except in the bounds of packed fields.
- `generate_msg_id`: which id a message carries does not matter to resending; the id is a parameter.
- Ownership and deletion of message memory, and the `length` field of out-box slots. Unused out-box slots have a negative version id in the model; in the source it is not set.
- `sinps` of a tank: the server writes and clears it but never reads it.
- The computer player's choice of course: its angle is a parameter; that it moves in every update is modelled.
- The position history and movement of tanks.
- The catch-up loop of `Room::update`: it appears as any number of updates before a message.
- Tank objects in the game registries are values looked up by identity: aliasing of a tank through its player is modelled by that identity.
- How a client shows states: a client that keeps the newest state it received and acknowledges every state it receives is assumed; its program is not part of this model.
- The dispatch of client messages to rooms, profiles, coins and level tables.

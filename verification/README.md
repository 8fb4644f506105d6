# Verified core of a distributed-systems lab

A Dafny model of three parts of the repository, with proofs of what they promise.

**The linearizability checker** (`src/porcupine`, `src/models/kv.go`). `Linearizability` says what a
legal order consistent with real time is. `Search` is the depth-first search on values: which
operations are linearized, the states along the way, the cursor, and the configurations seen.
`Bitset`, `Cache` and `DancingLinks` are the mutable structures of the code, each tied to a plain
set or sequence. `Checker.CheckSingle` is the search as the code runs it, on the linked list edited
in place, the bitset, the cache and the stack; it is proved to follow `Search` and so to decide
linearizability. `Entries` and `Events` build its input, `Parallel` is `checkParallel` over every
interleaving, `Kv` and `Locality` are the key-value model and the locality of its partition,
`KvMeaning` says what the model means to a client without its step function, and
`CheckOperations` and `CheckEvents` put the pieces together: the verdict is about the whole store,
and about the events under their own ids.

**Raft** (`src/raft/raft.go`). `RaftPeer` gives each locked region as a function on the state of a
peer, `RaftObject` is the object whose fields the code updates, proved against those functions, and
`RaftCluster` is the transition system of n peers over a network that loses, delays and reorders
messages. `RaftElection`, `RaftClusterSize`, `RaftLeaders`, `RaftLogs` and `RaftBackoff` state what
holds in every run; `RaftRuns`, `RaftSplitTerm` and `RaftTruncated` build the runs that show what
does not.

**MapReduce** (`src/mr`, `src/main/mrsequential.go`). `Coordinator` is the scheduler over every
interleaving of single reads, writes and compare-and-swaps of task statuses; `CoordinatorObject` is
the object with its task fields; `MapReduce` and `Outputs` are the data plane; `Job` joins both: if
`Done` answers true, the output files together are the output of the sequential program.
`JobFiles` is the naming of the intermediate files, and `JobCompletion` shows that every job can
come to a true `Done`.

## Assumptions and readings

- `Step` of a checked model is a function and `Equal` is equality of states, as in `src/models/kv.go`.
- The unstable `sort.Sort` is any sorted rearrangement of its input; `ihash` is any function to
  the naturals; files are sequences of pairs, written atomically; map functions are deterministic.
- The kill flag of `checkSingle` is a parameter: any sequence of answers to its reads.
- The comment at `src/porcupine/checker.go:64` has call and return reversed: in the code a node
  whose `match` is nil is a return. The model follows the code.
- `RequestVote` leaves the reply's term zero when the candidate's log is behind
  (`src/raft/raft.go:385-388`); the model keeps that.
- Vote and append requests may be delivered again, which only adds runs; each voter's reply is
  counted at most once per election, as the code starts one call per peer.
- Building an append request needs `1 <= nextIndex <= len(log)`, else the code panics at
  `src/raft/raft.go:528`. `RaftLogs.LeaderCanSend` shows that this always holds of a leader. Building
  the request and encoding it are one step, so the map in it is a copy.

## What the code does not do

- With no partitions and no timeout `checkParallel` never returns. `Parallel.ReturnsIff`: a run that
  cannot go on has returned if and only if there are partitions or a timeout is set, and
  `Parallel.RunsAreBounded` shows that every run comes to that. For key-value histories the failing
  case is exactly the empty history (`CheckOperations.AnswersIff`).
- `Done` may answer true before the map tasks are finished. `Coordinator.DoneIsRightIff`: its answer
  is right in every run if and only if there is a reduce task or there is no map task.
- A term can have two winners. `RaftClusterSize.OneWinnerPerTermIff`: each term has at most one
  winner in every run if and only if the cluster has at most two peers.
- A term can have two leaders, as `GetState` reports them (`src/raft/raft.go:87-97`), even if it has
  one winner: a vote request raises a leader's term and leaves it a leader.
  `RaftLeaders.OneLeaderPerTermIff`: no state has two leaders of one term if and only if there is at
  most one peer. `RaftLeaders.LeadersAreWinners`: without such a step leaders are winners.
- A peer that lost the leadership after its heartbeat began may have an index beyond its cut log, and
  then building the request panics. `RaftTruncated.RequestsCanBeBuiltIff`: this never happens if and
  only if there is at most one peer.

## Model

| member | source | states |
|---|---|---|
| `Checker.CheckSingle` | src/porcupine/checker.go:179-253 | Terminates on every well-formed history. Unless killed, the answer is true if and only if some order of the operations is legal and respects real time; on true every `longest[i]` is one such order; every recorded prefix is legal, respects real time and contains its operation, and an unkilled false answer with partials has recorded one of maximal length for every operation that occurs in any; without partials a false answer records none. If the first read of the kill flag is true and the history is not empty, the result is killed and false. |
| `Checker.CallTurn` | src/porcupine/checker.go:198-213 | A turn of the loop at a call: list, bitset, cache and stack keep representing one state of the abstract search, which keeps its invariant, and the termination measure falls. |
| `Checker.ReturnTurn` | src/porcupine/checker.go:214-242 | The same for a turn at a return: the last call is undone and the prefix recorded before it. |
| `Checker.LiftOp` | src/porcupine/checker.go:205-206 | After lifting operation x the list is the history without the linearized operations and x, and every lifted node still has the pointers it left with. |
| `Checker.UnliftOp` | src/porcupine/checker.go:236-240 | Unlifting the operation lifted last gives back the list before it. |
| `Checker.RecordLongest` | src/porcupine/checker.go:219-234 | Exactly the operations on the stack whose recorded prefix is missing or shorter get the stack as their prefix. |
| `Checker.EmptyList` | src/porcupine/checker.go:190 | The list is empty behind the head if and only if all operations are linearized. |
| `Search.PushTurn` | src/porcupine/checker.go:200-207 | Linearizing an allowed, unseen operation keeps the search invariant and leaves fewer unseen configurations. |
| `Search.AdvanceTurn` | src/porcupine/checker.go:208-213 | Passing over a call keeps the invariant: the skipped step is illegal, or its configuration was seen and, not being on the stack, is fully explored. |
| `Search.PopTurn` | src/porcupine/checker.go:235-242 | Backtracking keeps the invariant: the configuration left has been explored completely. |
| `Search.SoundStop` | src/porcupine/checker.go:244-252 | When nothing remains, the stack is a legal order of all operations that respects real time. |
| `Search.CompleteStop` | src/porcupine/checker.go:215-217 | When the search is stuck with an empty stack, no order of the operations is legal and respects real time. |
| `Search.LongestStop` | src/porcupine/checker.go:185-234 | When it is stuck, the recorded prefixes are as long as any prefix with that operation, despite the pruning. |
| `Search.PartialInReach` | src/porcupine/checker.go:197-204 | Every legal prefix consistent with real time ends in a configuration among those the search can see. |
| `Linearizability.CompletePartialIsLinearization` | src/porcupine/checker.go:244-252 | A prefix of full length is a linearization. |
| `Linearizability.LinearizationIsPartial` | src/porcupine/checker.go:185-186 | Every linearization is a prefix in the sense of the search, where each operation waits for those that returned before it was called. |
| `DancingLinks.Lift` | src/porcupine/checker.go:159-167 | Both nodes leave the list, all pointers between the remaining nodes agree, and nodes that had left keep theirs; also when call and return are adjacent. The call always has a next node, which the code follows unchecked. |
| `DancingLinks.Unlift` | src/porcupine/checker.go:169-177 | Both nodes come back between the neighbours they had; again the call has a next node. |
| `DancingLinks.LiftUnlift` | src/porcupine/checker.go:159-177 | Lifting and unlifting restores every next and prev pointer. |
| `DancingLinks.InsertBefore` | src/porcupine/checker.go:70-81 | The node ends directly before the mark and after the mark's old predecessor; without a mark nothing changes. |
| `DancingLinks.Length` | src/porcupine/checker.go:83-90 | The number of nodes of the list. |
| `DancingLinks.MakeLinkedEntries` | src/porcupine/checker.go:121-138 | A chain of fresh nodes, one per entry in order, with its id and value; a call's match is the node of its own return and a return has none. |
| `Cache.Contains` | src/porcupine/checker.go:145-152 | True if and only if the pair of linearized set and state was inserted, although only one bucket is searched. |
| `Cache.OneBucket` | src/porcupine/checker.go:145-152 | An entry has the same words if and only if it has the same set, and then it is in the bucket of that hash. |
| `Cache.Inserted` | src/porcupine/checker.go:201-202 | Appending to the bucket of the hash adds exactly that pair and keeps the cache right. |
| `Bitset.New` | src/porcupine/bitset.go:10-17 | A fresh empty set with room for the given number of bits. |
| `Bitset.Clone` | src/porcupine/bitset.go:19-23 | A fresh array with the same words. |
| `Bitset.Set` | src/porcupine/bitset.go:29-33 | Adds that position and changes no other. |
| `Bitset.Clear` | src/porcupine/bitset.go:35-39 | Removes that position and changes no other. |
| `Bitset.Get` | src/porcupine/bitset.go:41-44 | Membership of the position. |
| `Bitset.Popcnt` | src/porcupine/bitset.go:46-52 | The number of one bits over all words. |
| `Bitset.OnesInIsSize` | src/porcupine/bitset.go:46-52 | That number is the size of the set. |
| `Bitset.Hash` | src/porcupine/bitset.go:54-60 | The loop computes the hash, a function of the words alone. |
| `Bitset.Equals` | src/porcupine/bitset.go:62-72 | True if and only if lengths and words are the same. |
| `Bitset.EqualIsSameSet` | src/porcupine/bitset.go:62-72 | Bitsets of one length have equal words if and only if they stand for the same set. |
| `Entries.ByTimeIsOrder` | src/porcupine/checker.go:39-46 | The comparison is a strict weak order, so sorting by it makes sense. |
| `Entries.MakeEntries` | src/porcupine/checker.go:48-60 | A sorted rearrangement of the calls and returns, well-formed if and only if no call is after its return. |
| `Entries.WellFormedIffTimed` | src/porcupine/checker.go:48-60 | For any outcome of the sort, the list is well-formed if and only if no operation returns before it is called. |
| `Entries.EntryOrderIsRealTime` | src/porcupine/checker.go:39-60 | For any outcome of the sort: ids are dense, each operation has its own call before its own return, and a's return precedes b's call in the list if and only if a returned strictly before b was called. Inputs, outputs, times and clients are those of the operations. |
| `Entries.SameLinearizable` | src/porcupine/checker.go:48-60 | The entry list is linearizable if and only if the operations are. |
| `Events.Renumber` | src/porcupine/checker.go:92-106 | Ids become 0 to n-1, with n at least 0; two events get the same id if and only if they had the same; nothing else changes. |
| `Events.ConvertEntries` | src/porcupine/checker.go:108-119 | Each event becomes the entry of its kind with its id, client and value, and its position as time. |
| `Events.EventsWellFormed` | src/porcupine/checker.go:92-119 | If each id has one call and, later, one return, renumbering and converting gives a well-formed history. |
| `Parallel.StepInv` | src/porcupine/checker.go:274-353 | Every step of a worker, the loop, the timeout and the draining keeps: what the loop has looked at is genuine, and it looks only while nobody was killed. |
| `Parallel.VerdictsAreGenuine` | src/porcupine/checker.go:291-352 | In every interleaving Ok means all partitions are linearizable, Illegal that one is not, Unknown that a timeout was set. |
| `Parallel.InfoIsComplete` | src/porcupine/checker.go:312-341 | When partial linearizations are collected every worker has finished, each collected prefix is legal and contains its operation, and without a timeout it is as long as any. |
| `Checker.AnswerExists` | src/porcupine/checker.go:179-253 | For every well-formed history and model there is an answer that is right without a kill: the turns of the search lead to one. |
| `Checker.UnkilledIsLongest` | src/porcupine/checker.go:218-251 | An unkilled answer with partials has a longest prefix for every operation, whether it is true or false. |
| `Parallel.StepPossibleIff` | src/porcupine/checker.go:290-318 | In every reachable state of a call that has not returned, some step can happen if and only if there are partitions, a timeout is set, or the loop was left. |
| `Parallel.RunsAreBounded` | src/porcupine/checker.go:274-353 | Every run has at most two steps per partition and two more. |
| `Parallel.ReturnsIff` | src/porcupine/checker.go:274-353 | A run that cannot go on has returned if and only if there are partitions or a timeout is set. |
| `Parallel.NoPartitionsHang` | src/porcupine/checker.go:290-310 | Without partitions only a timeout can ever happen. |
| `Kv.Partition` | src/models/kv.go:18-34 | One sub-history per key that occurs, in the order of the keys, each holding exactly the operations of its key in their order. |
| `Locality.LegalByKey` | src/models/kv.go:40-54 | An order is legal for the whole store if and only if, for each key, the operations of that key are. |
| `KvMeaning.ExpectedSnoc` | src/models/kv.go:40-54 | The value a client expects of a key is set by a put of it, extended by an append to it, and left alone by everything else. |
| `KvMeaning.LegalMeansReadsRight` | src/models/kv.go:35-54 | An order is legal for the store if and only if every get returns the value of the last put of its key before it, or the empty string, followed by the values of all appends to it since. |
| `KvMeaning.LinearizableMeansExplained` | src/models/kv.go:35-54 | A history is linearizable for the store if and only if some order that respects real time explains every get in that way. |
| `Locality.StoreToKey` | src/models/kv.go:18-54 | A linearizable store history is linearizable for every key. |
| `Locality.Merge` | src/porcupine/model.go:28-32 | Orders of the keys' operations that respect real time can be merged into one that does. |
| `Locality.KeysToStore` | src/models/kv.go:18-54 | If every sub-history is linearizable, so is the history of the store. |
| `Locality.PartitionIsLocal` | src/porcupine/model.go:28-32 | The contract of Partition: linearizable as a whole if and only if every part is. |
| `CheckOperations.Prepare` | src/porcupine/checker.go:365-373 | Partitions the history and makes the entries of each part; all of them are well-formed if and only if nothing in the history returns before it is called. |
| `CheckOperations.VerdictIsRight` | src/porcupine/checker.go:365-373 | On every history in which nothing returns before it is called, and in every run: Ok means the history of the whole store is linearizable, so that some order respecting real time gives every get the last value put and what was appended since; Illegal that there is no such order; Unknown that a timeout was set. |
| `CheckOperations.EmptyHistoryHangs` | src/porcupine/checker.go:291-310 | There are no parts if and only if the history is empty, and then only a timeout can happen. |
| `CheckOperations.AnswersIff` | src/porcupine/checker.go:365-373 | Every run has at most two steps per key and two more, and one that cannot go on has answered if and only if the history is not empty or a timeout is set. |
| `CheckEvents.Prepare` | src/porcupine/checker.go:355-363 | Renumbers and converts the events; if each id has one call and, later, one return, the result is well-formed. |
| `CheckEvents.SameLinearizable` | src/porcupine/checker.go:92-119 | The renumbered entries are linearizable if and only if the events are, under their own ids and in their own order. |
| `CheckEvents.VerdictIsRight` | src/porcupine/checker.go:355-363 | In every run on paired events checked as one partition: Ok means they are linearizable, Illegal that they are not, Unknown that a timeout was set. |
| `RaftObject.Raft.constructor` | src/raft/raft.go:603-623 | A follower of term 0 without a vote, with the sentinel entry, commit 0 and no indexes. |
| `RaftObject.Raft.ConvertToCandidate` | src/raft/raft.go:107-113 | The state becomes that of the cluster's election step: next term, own vote, candidate; log, commit and indexes stay. |
| `RaftObject.Raft.ConvertToFollower` | src/raft/raft.go:115-122 | Follower of the given term with the vote cleared, even if the term is the same; all else stays. |
| `RaftObject.Raft.ConvertToLeader` | src/raft/raft.go:124-136 | The loop gives every peer the next index behind the log and match index 0; term, vote, log and commit stay. |
| `RaftObject.Raft.AttemptElection` | src/raft/raft.go:138-150 | A new term with the peer's own vote, and a request that describes its log. |
| `RaftObject.Raft.HandleVoteReply` | src/raft/raft.go:165-192 | A reply of a higher term makes a follower of it; else a grant counts one, and the peer becomes leader if and only if this makes more than half, it is still a candidate of that term and has not won yet. The same as the cluster's step. |
| `RaftObject.Raft.RequestVote` | src/raft/raft.go:353-390 | Granted if and only if the request is not of an older term, the peer is free to vote for it, and the request's last term is greater than the log's, or equal with a last index at least as great; the vote, term and reply term that follow; the log stays. The same as the cluster's step. |
| `RaftObject.Raft.AppendEntries` | src/raft/raft.go:268-327 | A follower whose log matches at the previous index gets the entries sent behind it, and as commit, if the leader's is greater, the smaller of that and its last index; others keep log and commit; a peer that is no follower steps down. The same as the cluster's step. |
| `RaftObject.Raft.BuildAppend` | src/raft/raft.go:523-533 | Its entries complete the log from the previous index on, whose term it carries. The same as the cluster's send step. |
| `RaftObject.Raft.HandleAppendReply` | src/raft/raft.go:541-570 | A rejection sets the next index to the map's index of the greatest lower term that has one, or 1; a success to the end of the log; commit moves only when this reply makes more than half of the round. The same as the cluster's step. |
| `RaftObject.Raft.Start` | src/raft/raft.go:436-459 | A leader's log is the old one and then the command in the current term, at the index answered, and a new term's first index is noted; others change nothing. |
| `RaftElection.StepInv` | src/raft/raft.go:107-192 | Every step keeps: a grant of the current term is still held unless the voter stepped down since; counted votes are distinct peers that granted this very request; a candidate of the term of its request still has its log. |
| `RaftElection.VoteIsLostIff` | src/raft/raft.go:271-277 | A vote of the current term is lost in a step if and only if an append of the same term reaches that peer and it is not a follower. |
| `RaftElection.GrantedIff` | src/raft/raft.go:358-388 | In every state a vote request is granted if and only if it is not of an older term, the peer is free to vote for it, and the log it was made with ends in a later term than the peer's, or in the same and is at least as long. |
| `RaftElection.TwoWinnersShareAVoter` | src/raft/raft.go:182-192 | If two peers win one term, some voter granted both and between the grants ran the equal-term step-down. |
| `RaftElection.OneWinner` | src/raft/raft.go:182-192 | A term without such a step-down has at most one winner. |
| `RaftElection.WinnerHasQuorum` | src/raft/raft.go:181-192 | A majority of distinct peers had granted the winner's very request, each with a log whose last term is lower than that of the winner's log, or equal and the log no longer, and the winner's log is still the one with which it asked. |
| `RaftClusterSize.StepDownInv` | src/raft/raft.go:271-277 | Every step keeps: after stepping down within a term a peer neither starts an election in it nor wins it. |
| `RaftClusterSize.VotersWinFirst` | src/raft/raft.go:182-192 | Of two winners of one term, one that had the other's vote won after it. |
| `RaftClusterSize.SmallIsSafe` | src/raft/raft.go:182-192 | With at most two peers a term has at most one winner, in every run. |
| `RaftClusterSize.OneWinnerPerTermIff` | src/raft/raft.go:107-192 | Each term has at most one winner in every run if and only if there are at most two peers. |
| `RaftLeaders.LeaderRaisedIff` | src/raft/raft.go:365-368 | A leader's term changes without its role being lost in a step if and only if the step is a vote request of a higher term to it. |
| `RaftLeaders.LeaderWonOrRaised` | src/raft/raft.go:182-192 | In every run a leader has won its term, or a vote request raised it to that term while it was a leader. |
| `RaftLeaders.LeadersAreWinners` | src/raft/raft.go:182-192 | Without such a request the leaders of a term are its winners. |
| `RaftLeaders.OneLeader` | src/raft/raft.go:182-192 | A term without such a request has at most one leader, if nobody steps down within it or there are at most two peers. |
| `RaftLeaders.RivalLeaders` | src/raft/raft.go:365-368 | For every cluster of two or more, a run in which the first and the last peer are leaders of term 2. |
| `RaftLeaders.OneLeaderPerTermIff` | src/raft/raft.go:365-368 | No reachable state has two leaders of one term if and only if there is at most one peer. |
| `RaftSplitTerm.TwoWinnersInOneTerm` | src/raft/raft.go:271-277 | For every cluster of three or more, a run in which two peers win term 2. |
| `RaftLogs.LogTermsStayOrdered` | src/raft/raft.go:284-307 | In every reachable state each log has its sentinel, is ordered by term and within its peer's term, and each append in flight is ordered from its previous term to its own. |
| `RaftLogs.LeaderCanSend` | src/raft/raft.go:523-561 | In every reachable state no next index is below 1, and a leader has for every other peer one within its log, so that the request can be built. |
| `RaftTruncated.RequestsCanBeBuiltIff` | src/raft/raft.go:523-533 | Every peer that has been a leader can build its requests in every reachable state if and only if there is at most one peer; otherwise a run cuts a former leader's log below its next index. |
| `RaftBackoff.BackOffLowers` | src/raft/raft.go:550-556 | The back-off from a term leads to the first index of the greatest lower term of the log, or 1; it stays in range and behind an entry of a lower term. |
| `RaftBackoff.NextAfterRejection` | src/raft/raft.go:550-556 | After a rejection in the leader's term the peer's next index is the first index of the greatest term of the log below the rejected one, or 1 if there is none; no other index changes. |
| `RaftBackoff.RejectionLowers` | src/raft/raft.go:284-300 | A rejected append keeps both logs and strictly lowers the next previous term. |
| `RaftBackoff.AcceptanceCopies` | src/raft/raft.go:302-320 | An accepted append makes the follower's log equal to the leader's. |
| `RaftBackoff.BackOffConverges` | src/raft/raft.go:543-560 | Within as many rounds as the leader's log has distinct terms, plus one, the logs are equal. |
| `RaftBackoff.CommandKeepsFirstIndexes` | src/raft/raft.go:447-453 | Appending a command keeps `termToIndex` the map of first indexes. |
| `Coordinator.StepInv` | src/mr/coordinator.go:50-122 | Every single read, write, compare-and-swap and timer keeps the scheduler's invariant. |
| `Coordinator.CoordinatorIsSafe` | src/mr/coordinator.go:50-122 | In every interleaving the second search for a reduce task never comes back empty, a reduce task is idle until all map tasks are finished, dispatches minus resets is 1 exactly for tasks not idle, and a running task whose dispatch is complete has exactly one timer. |
| `Coordinator.FinishedForever` | src/mr/coordinator.go:113-122 | A finished task stays finished. |
| `Coordinator.FinishFinishes` | src/mr/coordinator.go:113-122 | In every state a report makes a running task finished, leaves any other status of it, and changes no other task; the statuses are those that `HandleFinish` gives. |
| `Coordinator.DoneFalse` | src/mr/coordinator.go:147-151 | A scan answers false only if a reduce task is not finished at that moment. |
| `Coordinator.DoneMeansFinished` | src/mr/coordinator.go:145-154 | With a reduce task, when the unlocked scan answers true every task is finished at that moment. |
| `Coordinator.DoneTooEarly` | src/mr/coordinator.go:145-154 | Without reduce tasks there is a run in which `Done` is true and every map task is still idle. |
| `Coordinator.DoneIsRightIff` | src/mr/coordinator.go:145-154 | `Done` is right in every run if and only if there is a reduce task or no map task. |
| `Coordinator.PickIsServed` | src/mr/coordinator.go:51-79 | Run without interference, the handler marks the task that `Pick` names as running, and nothing else. |
| `Coordinator.HandlerReturns` | src/mr/coordinator.go:50-81 | From every state a handler that holds the mutex gives it back after finitely many accesses of its own. |
| `Coordinator.NoStuckJob` | src/mr/coordinator.go:51-110 | In every reachable state with an unfinished reduce task, once the handler has given the mutex back, a request is handed a task or some running task has a pending timer. |
| `CoordinatorObject.MapReduceCoordinator.constructor` | src/mr/coordinator.go:159-200 | Idle tasks numbered from 1: one map task per file, and reduce tasks whose m-th file is the one that map task m writes for them. |
| `CoordinatorObject.MapReduceCoordinator.GetMapTask` | src/mr/coordinator.go:84-91 | The first idle map task, or nothing. |
| `CoordinatorObject.MapReduceCoordinator.GetReduceTask` | src/mr/coordinator.go:94-110 | The first idle reduce task if all map tasks are finished, else nothing. |
| `CoordinatorObject.MapReduceCoordinator.HandleWorker` | src/mr/coordinator.go:50-81 | Hands out what `Pick` names, with its files, marks it running and changes no other task. |
| `CoordinatorObject.MapReduceCoordinator.HandleFinish` | src/mr/coordinator.go:113-122 | The reported task becomes finished if it was running; no other changes. |
| `CoordinatorObject.MapReduceCoordinator.Done` | src/mr/coordinator.go:145-154 | True if and only if every reduce task is finished. |
| `JobFiles.WriteFiles` | src/mr/worker.go:158-172 | The buckets become the files of that map task, by reduce task from 1, and no other file changes. |
| `JobFiles.WritesAreWritten` | src/mr/worker.go:158-172 | Files so written are the intermediate files of the job. |
| `JobFiles.ReadColumn` | src/mr/worker.go:181-193 | Reading the files that a newly made coordinator names for reduce task r gives, for each map task in order, what it wrote for r. |
| `MapReduce.MapFiles` | src/main/mrsequential.go:38-51 | The pairs of all files in order. |
| `MapReduce.MapAllSplit` | src/main/mrsequential.go:38-51 | The pairs of the first files come first, and those of a file are what the map function emits for its name and content. |
| `MapReduce.Group` | src/mr/worker.go:197-213 | From pairs sorted by key: one line per key that occurs, keys strictly increasing, each the reduction of a rearrangement of all values of that key. |
| `MapReduce.Sequential` | src/main/mrsequential.go:38-84 | Its output is such lines for the pairs of all files. |
| `MapReduce.Split` | src/mr/worker.go:141-151 | Bulk r holds exactly the pairs whose key hashes to r, in order. |
| `MapReduce.SortBulks` | src/mr/worker.go:153-155 | Each bulk is rearranged into key order. |
| `MapReduce.DoMap` | src/mr/worker.go:124-174 | File r holds, sorted, exactly the pairs of the input files whose key hashes to r. |
| `MapReduce.DoReduce` | src/mr/worker.go:176-218 | Such lines for the pairs of all the files read. |
| `MapReduce.OutputOfSame` | src/mr/worker.go:195-213 | What counts as output depends on the pairs only up to rearrangement. |
| `Outputs.ColumnIsBucket` | src/mr/coordinator.go:176-180 | The files of one reduce task together hold exactly the pairs of its bucket. |
| `Outputs.OutputLines` | src/main/mrsequential.go:68-84 | An output has each right line exactly once and no other. |
| `Outputs.JobEqualsSequential` | src/mr/worker.go:141-213 | The union of the reducers' outputs is the sequential output as a multiset, and each key is only in the output of the reducer it hashes to. |
| `Job.JobStepInv` | src/mr/coordinator.go:50-122 | Every step of coordinator and workers, including repeated and late ones, keeps the files of finished map tasks and the outputs of finished reduce tasks right. |
| `Job.JobIsRight` | src/main/mrsequential.go:38-84 | In every run in which `Done` answers true, the output files together are the sequential output, for every job with a reduce task and a reduce function insensitive to the order of values. |
| `JobCompletion.JobCanComplete` | src/mr/coordinator.go:50-154 | Every job with a reduce task has a run in which `Done` answers true. |
| `JobCompletion.DoneCanBeTrue` | src/mr/coordinator.go:145-154 | For all numbers of map tasks and reduce tasks, at least one of these, some run of the coordinator ends with `Done` answering true. |
| `JobCompletion.OutputExists` | src/mr/worker.go:195-213 | Every list of pairs has an output, whatever the reduce function. |
| `Strings.LessMeans` | src/models/kv.go:28 | The order of keys: a proper prefix is less, and else the smaller character at the first difference decides. |

## Left out

- Leader Completeness and State Machine Safety of Raft: the code does not give them, as terms can have two leaders and appends truncate without a check.
- RaftBackoff.BackOffConverges: for a leader whose log and term stay fixed and whose `termToIndex` holds first indexes, and a follower whose log matches it pairwise; that these hold in every reachable state is not claimed.
- RaftElection.OneWinner: one way only, since a step-down need not lead to a second winner; the exact condition on clusters is `RaftClusterSize.OneWinnerPerTermIff`.
- Raft `apply`, persistence, snapshots, timers and random timeouts: an election or a heartbeat may start at any time.
- The network code of `src/labrpc` and `src/labgob`, and `src/kvraft`, `src/shardctrler`, `src/shardkv`, whose servers are stubs.
- `src/raft/raft_sleep.go` and `src/mr/coordinator_1.go`, which are commented out.
- Real files: JSON, file names as strings, crashes in the middle of writing, and a straggler that rewrites a file while another worker reads it.
- The value of the FNV hash.
- The set of distinct partial linearizations collected by pointer in `checkParallel`, and everything else of `src/porcupine/visualization.go`.
- A `PartitionEvent` that splits the events, the other defaults of `fillDefault`, and the functions that describe operations as text.
- CheckOperations.VerdictIsRight: histories in which an operation returns before it is called are not covered; by `Entries.WellFormedIffTimed` their entries are never well-formed, and the code would take such a call for a return.
- Cache.Inserted: the cache is a map value that the loop reassigns; its bitsets are arrays on the heap, and `Cache.Valid` keeps them apart from the one still being changed.
- Tests, plugins in `src/mrapps`, the harness files and the other programs of `src/main`.
